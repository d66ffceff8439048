# Verification of the db-backup-controller

This project models the backup path of the db-backup-controller in Dafny and proves what it
promises: that a stored backup gives back what was put into it, that retention never deletes a
backup it still promises to keep, and that the controller leaves nothing behind in the cluster.
`dafny verify dfyconfig.toml` checks it.

Five parts build on each other.

- **Encrypted stream** (`Bytes`, `Keystream`, `Streams`, `CryptoStream`, `Sections`). The writer
  buffers up to fifteen bytes and encrypts whole blocks in place; the reader serves reads at any
  offset, with short reads that carry no error. The cipher is counter mode (section 6.5 of NIST SP
  800-38A) over an unknown block function and an unknown key derivation. Pipes and objects may fail
  at any time; the constant `mayFail` says whether one can fail at all, so that every failure result
  below is traced to a failing call.
- **Archive** (`Utf8`, `FooterText`, `FooterBytes`, `ArchiveFormat`, `ArchiveWriting`,
  `ArchiveReading`). File contents one after the other and a zero-padded footer of 512 KiB. The
  footer's text is JSON (section 4 of RFC 8259) in UTF-8 (RFC 3629), printed and parsed here in full
  detail for the form the program writes.
- **Request machine and round trip** (`BackupRequests`, `BackupWriting`, `RoundTrip`). The HTTP file
  system as a function on states, the handler proved against it, and the whole way from requests
  through archive, encryption and storage back to the restored files.
- **Retention and storage** (`Labels`, `RetentionStore`, `LabelRuns`, `LabelManager`,
  `RecurringNames`, `StorageProtocol`, `Lineage`, `Storage`, `Operation`, `PointInTime`). The label
  store carries its whole history, across saving and loading; theorems about runs speak of every such
  history. The bucket carries the run of durable steps that the storage made it take; safety and
  restart theorems speak of every such run, cut short by a crash anywhere. `Operation` drives a fresh
  bucket through any sequence of uploads, cleanups, restarts and outside deletions, tells what each
  call did and draws the conclusions of both kinds. `PointInTime` joins the search to the round trip.
- **Controller** (`Finalizers`, `Status`). The finalizer protocol against failing calls and
  interfering users, and the condition list with its derived "Ready".

Where methods change state, each method is proved against a function or a relation on values, and the
laws are proved about those. Objects with a `history` or `run` keep, as ghost state, every state they
were in; each method extends it by steps of the relation, and constructors begin it. So a theorem about
all runs is a theorem about every moment of every execution, and the methods `Operation.Operate`,
`Operation.CleanUpUntilDone` and `Finalizers.Operate` state it for whole executions.

Five findings are part of the results.

- Reading past the end of an encrypted payload runs into reversed slice bounds exactly when the offset
  is not a multiple of sixteen (`CryptoReaderAt.ReadAt`).
- After a removal the label index still refuses the removed label's name until the store is loaded
  again (`LabelRuns.StaleIndexRefuses`; the exact condition is `LabelRuns.DuplicateExactly`).
- Labels whose names recur break both promises of the label store. The default week format names the
  calendar year and the ISO week, so that 30 December 2024 is in "2024-w01" again; that label has
  expired by then and goes to a second backup (`RecurringNames.DefaultWeekRecurs`), and a search can
  then have two answers (`RecurringNames.RecurringNameTwoAnswers`). The exact condition for one label
  is that it is held until the last time that has its name (`LabelRuns.OneHolderExactly`); the
  theorems about owners and answers ask this of the labels concerned only.
- An addition can succeed without giving the backup a label: `Manager.Add` fails exactly when every
  label is known already, and a free label that does not parse is neither added nor reported
  (`LabelManager.Manager.Add` says exactly which labels are given, `LabelManager.AddWithoutLabel`
  shows the case).
- An upload that gets no label, or crashes before the labels are saved, leaves an object that no
  cleanup ever deletes (`StorageProtocol.UploadsCanBeUnlisted`, `StorageProtocol.UnlistedStays`). A
  completed cleanup deletes an object exactly when it is listed without a live label
  (`StorageProtocol.DeletedExactly`).

## Model

| member | source | states |
|---|---|---|
| Bytes.XorTwice | pkg/cryptostream/readerAt.go:107-108 | masking a byte twice with the same key byte gives it back |
| Bytes.XorBit | pkg/cryptostream/writer.go:96-97 | masking turns over exactly the bits where the key byte has a one; `Bytes.BitIsQuotient` says what a bit is |
| Keystream.CtrTwice | pkg/cryptostream/readerAt.go:107-108 | decrypting undoes encrypting at every offset, for every block function |
| Keystream.CtrAppend | pkg/cryptostream/writer.go:96-97 | a stream may be encrypted piece by piece, each piece at its absolute offset |
| Keystream.CtrBit | pkg/cryptostream/writer.go:96-97 | encrypting turns over exactly the bits where the keystream has a one |
| Keystream.StreamBlock | pkg/cryptostream/writer.go:34-43 | the keystream of pass phrase and salt is the encrypted counters, one block after the other, modulo 2^128 |
| Keystream.CounterShift | pkg/cryptostream/writer.go:96-97 | advancing the first counter shifts the keystream by sixteen bytes a block |
| Keystream.XorKeyStreamAt | pkg/cryptostream/writer.go:96-97 | in place, the front of a buffer is encrypted and the rest is left alone |
| Streams.Pipe.Write | pkg/cryptostream/writer.go:99-106 | the assumed pipe: a prefix arrives; a failed or short write is final |
| Streams.StoredObject.ReadAt | pkg/cryptostream/readerAt.go:92-105 | the assumed object: what is there is read, the end of file is reported on short reads |
| CryptoStream.NewWriter | pkg/cryptostream/writer.go:26-59 | header and salt are the first sixteen bytes sent; it fails exactly when the pipe failed or the random source gave too little, and then nothing was sent in the latter case |
| CryptoStream.CryptoWriteCloser.Write | pkg/cryptostream/writer.go:84-114 | takes all of the caller's bytes, which stay as they are; keeps whole blocks sent, the rest (under sixteen bytes) buffered, and blocksWritten * 16 + len(buf) equal to the bytes accepted |
| CryptoStream.CryptoWriteCloser.Close | pkg/cryptostream/writer.go:61-82 | after it the pipe holds the one-shot encryption of everything accepted |
| CryptoStream.ExtendPayload | pkg/cryptostream/writer.go:87-111 | buffered rest and new bytes, cut at a block boundary, continue the encrypted payload |
| CryptoStream.EncryptChunks | pkg/cryptostream/writer.go:26-114 | chunking independence: any sequence of writes stores "DBCCrypt", the salt, and the concatenation with exactly the bits of the keystream turned over |
| CryptoStream.WindowBounds | pkg/cryptostream/readerAt.go:77-90 | the fetched window is block aligned, not empty and covers the wanted offset |
| CryptoStream.WindowCount | pkg/cryptostream/readerAt.go:110-113 | what is left of the window is exactly the promised count; past the payload nothing, or reversed bounds |
| CryptoStream.CryptoReaderAt.FetchWindow | pkg/cryptostream/readerAt.go:92-108 | the decrypted window is that part of the payload |
| CryptoStream.CryptoReaderAt.ReadAt | pkg/cryptostream/readerAt.go:67-114 | exact contract: n = min(len, payload - off, 16 * max((off + len) / 16, off / 16 + 1) - off), those bytes are the payload's, the rest of the buffer is unchanged; fails only if the object may; panics only for an unaligned offset past the payload, and never succeeds there |
| CryptoStream.ReadsMakeProgress | pkg/cryptostream/readerAt.go:77-113 | a read with room before the end yields at least one byte and falls short of the buffer by less than a block |
| CryptoStream.NewReaderAt | pkg/cryptostream/readerAt.go:27-64 | accepts exactly streams with the header and a salt, and derives the key from that salt; an empty payload may be refused |
| CryptoStream.SealedOpens | pkg/cryptostream/writer.go:45-59 | what the reader decrypts from a sealed stream is what was sealed |
| CryptoStream.SealedIsEncrypted | pkg/cryptostream/writer.go:45-59 | the sealed form bit by bit |
| Sections.Source.ReadAt | cmd/backup-runner/restore.go:77-89 | plain and encrypted backups offer the same view, size minus sixteen for the latter, and reads make progress |
| Sections.SectionReader.Read | pkg/backupengine/cockroach/archive.go:85 | a section's cursor moves over exactly the bytes read and reports the end at its limit only |
| Sections.ReadAll | pkg/backupengine/cockroach/archive.go:41-44 | the read loop ends and yields exactly the section, for every choice of buffer sizes and despite short reads |
| Utf8.DecodeEncoded | pkg/backupengine/cockroach/archive.go:49-52 | decoding undoes encoding for every text |
| Utf8.EncodedChar | pkg/backupengine/cockroach/archive.go:55-59 | each character is encoded in its shortest form, as section 3 of RFC 3629 says |
| FooterText.ParseIntPrinted | pkg/backupengine/cockroach/archive.go:16-19 | every 64-bit number is read back from its decimal form, whatever follows |
| FooterText.ParseNameEscaped | pkg/backupengine/cockroach/archive.go:57 | every name is read back from its escaped form |
| FooterText.EscapedIsSafe | pkg/backupengine/cockroach/archive.go:55-59 | in every escaped name nothing is left that the encoder escapes |
| FooterText.ParseEntryPrinted | pkg/backupengine/cockroach/archive.go:16-21 | every entry is read back from its text |
| FooterText.ListedFooter | pkg/backupengine/cockroach/archive.go:21 | listing a map's entries in any order and collecting them gives the map |
| FooterText.ParseFooterPrinted | pkg/backupengine/cockroach/archive.go:49-59 | parsing undoes printing, in whatever order the entries are printed |
| FooterBytes.TrimZerosPadded | pkg/backupengine/cockroach/archive.go:50 | right-trimming removes the padding and nothing else |
| FooterBytes.FooterRoundTrip | pkg/backupengine/cockroach/archive.go:40-67 | decode(encode(f)) = f for every footer whose text fits |
| FooterBytes.StoredFooter | pkg/backupengine/cockroach/archive.go:61-66 | the stored footer is 524288 bytes long: the text, then zero bytes only |
| FooterBytes.PrintedFooter | pkg/backupengine/cockroach/archive_test.go:18-27 | the text of the footer of one file is the one that the repository's test expects |
| FooterBytes.FooterTextLength | pkg/backupengine/cockroach/archive.go:55-63 | the length of the text does not depend on the order of the entries |
| FooterBytes.FooterFits | pkg/backupengine/cockroach/archive.go:13 | n plain names of at most L characters fit when n * (L + 53) + 3 <= 524288 |
| ArchiveFormat.LayoutNames | pkg/backupengine/cockroach/archive.go:106-116 | the footer lists exactly the created names |
| ArchiveFormat.FileInArchive | pkg/backupengine/cockroach/archive.go:132-139 | each file's content is at the offset and of the size that the footer gives |
| ArchiveFormat.EntriesTile | pkg/backupengine/cockroach/archive.go:106-139 | the entries tile the body in creation order without gap, overlap or rest |
| ArchiveFormat.EntriesStable | pkg/backupengine/cockroach/archive.go:106-116 | creating further files changes no earlier entry |
| ArchiveFormat.EntriesStableWhileWriting | pkg/backupengine/cockroach/archive.go:118-130 | writing to the open file changes no closed entry |
| ArchiveFormat.ContentLocated | pkg/backupengine/cockroach/archive.go:76-86 | a name has content exactly when the footer lists it, and then at the listed place |
| ArchiveFormat.ArchiveFooter | pkg/backupengine/cockroach/archive.go:40-53 | the last 524288 bytes of an archive decode to its layout |
| ArchiveWriting.Sink.Write | cmd/backup-runner/backup.go:52-63 | the archive's sink takes all bytes or breaks, encrypted or not |
| ArchiveWriting.EncodeTo | pkg/backupengine/cockroach/archive.go:55-67 | appends exactly the padded footer, or panics exactly when the text is longer than the padding, or the sink broke |
| ArchiveWriting.ArchiveWriter.Create | pkg/backupengine/cockroach/archive.go:106-116 | refuses exactly the names already used, and then no file is open; otherwise a new empty file is open |
| ArchiveWriting.ArchiveWriter.Write | pkg/backupengine/cockroach/archive.go:118-130 | appends to the open file and only there; without an open file nothing is written |
| ArchiveWriting.ArchiveWriter.CloseIfOpen | pkg/backupengine/cockroach/archive.go:132-139 | fills in the size, so that the footer is the layout of the files |
| ArchiveWriting.ArchiveWriter.Close | pkg/backupengine/cockroach/archive.go:97-104 | what the sink took since the start is an archive of the files, or the footer was too long, or the sink broke |
| ArchiveReading.DecodeFrom | pkg/backupengine/cockroach/archive.go:40-53 | reads and decodes the last bytes; unreadable only if reads may fail or the object is shorter than the footer |
| ArchiveReading.ArchiveReader.Open | pkg/backupengine/cockroach/archive.go:76-86 | opens the listed section, or reports exactly the unlisted names as missing |
| ArchiveReading.NewArchiveReader | pkg/backupengine/cockroach/archive.go:71-74 | opening an archive yields its layout |
| ArchiveReading.ReadFile | pkg/backupengine/cockroach/reader.go:61-93 | the full-file path serves exactly the content stored under the name |
| ArchiveReading.Unpack | pkg/backupengine/cockroach/crdb.go:191-226 | unpacking yields every file of the archive and nothing else |
| BackupRequests.AlwaysSeparated | pkg/backupengine/cockroach/writer.go:87-166 | in every reachable state the archive holds data files only and memory holds meta files only |
| BackupRequests.KindsOfNames | pkg/backupengine/cockroach/writer.go:87-118 | no name is of both kinds, and the empty name is of neither |
| BackupRequests.FlushStored | pkg/backupengine/cockroach/writer.go:46-60 | flushing memory never meets a used name, and the closed archive holds exactly what is stored |
| BackupRequests.OthersKeepStored | pkg/backupengine/cockroach/writer.go:87-166 | a request leaves all names alone that it does not mutate |
| BackupRequests.AcceptedTakesEffect | pkg/backupengine/cockroach/writer.go:95-154 | an accepted put stores its body, an accepted delete removes it |
| BackupRequests.ResponseFromHistory | pkg/backupengine/cockroach/writer.go:62-167 | status and body of the answer to every request, from the requests before it alone |
| BackupRequests.ReadBack | pkg/backupengine/cockroach/writer.go:118-147 | a get answers 200 with the body of the last put that reached the meta file, and 404 after a delete |
| BackupRequests.ReadNothing | pkg/backupengine/cockroach/writer.go:126-131 | a get of a meta file that nothing reached answers 404 |
| BackupRequests.AcceptedExactly | pkg/backupengine/cockroach/writer.go:79-160 | exactly which puts and deletes are accepted: deletes of meta files, and puts with a sound body, of a data file only the first that reaches it |
| BackupRequests.KindByEnds | pkg/backupengine/cockroach/writer.go:87-118 | data files are the names ending in ".sst", meta files those of the others that begin with "BACKUP" or "progress/BACKUP" |
| BackupRequests.LastAcceptedIsStored | pkg/backupengine/cockroach/writer.go:46-166 | for every request sequence, a name whose last mutating request was accepted maps to that request's body, or to nothing after a delete |
| BackupRequests.FirstDataPutStays | pkg/backupengine/cockroach/writer.go:88-116 | a data file keeps the body of the first put that reached the archive |
| BackupRequests.LaterDataPutRefused | pkg/backupengine/cockroach/writer.go:95-99 | every later put of a data file is refused |
| BackupRequests.AbsentBefore | pkg/backupengine/cockroach/writer.go:88-99 | a data file that no put reached is not in the archive |
| BackupWriting.Copy | pkg/backupengine/cockroach/writer.go:101-106 | copying in pieces of any size appends exactly the body to the open file |
| BackupWriting.BackupWriter.ServeHTTP | pkg/backupengine/cockroach/writer.go:62-167 | state and response are those of the request machine, until the sink breaks |
| BackupWriting.BackupWriter.PutData | pkg/backupengine/cockroach/writer.go:88-116 | a data request changes the archive as the request machine says |
| BackupWriting.BackupWriter.ServeMetaFile | pkg/backupengine/cockroach/writer.go:118-160 | a meta request changes memory as the request machine says |
| BackupWriting.BackupWriter.FlushMem | pkg/backupengine/cockroach/writer.go:50-57 | appends every memory file once, in some order; fails only with the sink |
| BackupWriting.BackupWriter.Close | pkg/backupengine/cockroach/writer.go:43-60 | the sink holds an archive of data files and memory files |
| RoundTrip.ClosedArchiveReads | pkg/backupengine/cockroach/writer.go:46-60 | the footer of a closed backup finds exactly the stored names, at their bytes |
| RoundTrip.ServeAll | pkg/backupengine/cockroach/writer.go:62-167 | serving a sequence of requests answers each from its history and leaves what the request machine holds |
| RoundTrip.StoredBytesRestore | cmd/backup-runner/restore.go:77-91 | decrypting the stored bytes yields an archive whose footer finds exactly what the requests stored |
| RoundTrip.SmallBackupsFit | pkg/backupengine/cockroach/archive.go:61 | below the bound on names the footer never overflows |
| RoundTrip.CreateBackup | cmd/backup-runner/backup.go:50-77 | without error and with a sound pipe, the pipe has received a complete backup of what the requests stored, in the clear without a pass phrase, and with one encrypted bit by bit under that salt; an error means that the database failed, the pipe broke or the salt is missing; a panic that the footer overflows |
| RoundTrip.CloseBackup | pkg/backupengine/cockroach/crdb.go:62-67 | closing at the end of a backup completes the archive, unless the sink broke, which is only logged, or the footer overflows |
| RoundTrip.EngineCreateBackup | pkg/backupengine/cockroach/crdb.go:49-88 | the archive is closed whether or not the database fails, and only the database's failure is reported |
| RoundTrip.OpenBackup | cmd/backup-runner/restore.go:77-89 | opening a backup with its pass phrase shows the archive that was written |
| RoundTrip.RestoreFile | cmd/backup-runner/restore.go:77-95 | every stored name is restored byte for byte, every other name is reported missing, and only failing reads prevent it |
| RoundTrip.UnpackBackup | cmd/backup-unpack/main.go:86-99 | unpacking a stored backup gives exactly the stored files |
| RoundTrip.BackupAndRestore | cmd/backup-runner/backup.go:44-77 | the whole way for every request sequence, pass phrase and name; only failing storage, a failing database or random source, or an overflowing footer prevents it |
| Labels.LiveLabelsAre | pkg/labelmanager/retentionStore.go:69-94 | cleaning keeps exactly the live labels |
| Labels.LiveIsStaying | pkg/labelmanager/retentionStore.go:71-89 | a label is live exactly when it parses and no more than its hold time has passed since: the configured one of its format if positive, else its own |
| Labels.CleanTwice | pkg/labelmanager/retentionStore.go:65-98 | cleaning early first makes no difference to cleaning later |
| Labels.RegularNames | pkg/labelmanager/retentionStore.go:53-55 | every label of a format that names periods and outlasts them is regular: read as the begin of an interval of times, held to its end, and of no other format |
| RetentionStore.RetentionStore.constructor | pkg/labelmanager/retentionStore.go:183-197 | loading indexes every held name and nothing else, and continues the history of the store that was saved |
| RetentionStore.RetentionStore.RebuildLabels | pkg/labelmanager/retentionStore.go:221-229 | the index points to a holder of every held name and keeps what it said about others |
| RetentionStore.RetentionStore.AddEntry | pkg/labelmanager/retentionStore.go:39-59 | a duplicate exactly when the store knows the name, invalid exactly when it does not and the name does not parse, otherwise added; extends the history by that attempt |
| RetentionStore.RetentionStore.CleanupLabels | pkg/labelmanager/retentionStore.go:61-98 | for any stored labels and any configuration: every entry stays and keeps, in order, exactly the labels that parse and have not passed the configured hold time, or their own where none is configured |
| RetentionStore.RetentionStore.Remove | pkg/labelmanager/retentionStore.go:199-207 | removes the entry and nothing else |
| RetentionStore.RetentionStore.ListEntries | pkg/labelmanager/retentionStore.go:155-181 | lists exactly the entries with labels, or without, each once |
| RetentionStore.RetentionStore.FindRetainedBackupForPointInTime | pkg/labelmanager/retentionStore.go:100-139 | for every iteration order: an entry holding a label whose time is not after the instant and latest among all such labels, or "" exactly when no label has a time within the greatest duration before it |
| LabelRuns.NamesStayUnique | pkg/labelmanager/retentionStore.go:39-98 | one event never lets two entries hold the same label name |
| LabelRuns.NamesAlwaysUnique | pkg/labelmanager/retentionStore.go:39-98 | at every moment of every run from a well-formed store, no label name is held by two entries |
| LabelRuns.GrantedNameWasFree | pkg/labelmanager/retentionStore.go:47-57 | the index covers all held labels at the duplicate check |
| LabelRuns.DuplicateExactly | pkg/labelmanager/retentionStore.go:47-51 | an attempt is refused exactly when the name is held or the index remembers it; on an exact index, exactly when it is held |
| LabelRuns.IndexExactUntilCleanup | pkg/labelmanager/retentionStore.go:183-229 | in every run, from any loading until the next cleanup or removal, the index holds just the held names |
| LabelRuns.RefusedExactlyWhenHeld | pkg/labelmanager/retentionStore.go:47-51 | in that time an attempt is refused exactly when some entry holds the name |
| LabelRuns.AddToLoaded | pkg/labelmanager/retentionStore.go:39-59 | on a freshly loaded store an addition reports a duplicate exactly when some entry holds the label |
| LabelRuns.StaleIndexRefuses | pkg/labelmanager/retentionStore.go:199-229 | a concrete store where a name that nobody holds is refused after a removal |
| LabelRuns.LabelSurvivesExactly | pkg/labelmanager/retentionStore.go:65-98 | over every run with changing configurations: an entry still holds a label exactly when the label stayed at every cleanup in between, under the configuration of that cleanup |
| LabelRuns.AlwaysProper | pkg/labelmanager/manager.go:66-71 | in every run stored labels carry the configured hold time and the name of a period |
| LabelRuns.FirstAttemptOwns | pkg/labelmanager/retentionStore.go:39-98 | for one label, whatever the other labels and formats are like: over whole runs it is held by the first backup that attempted it until a cleanup after its hold time, and never by another |
| LabelRuns.OneHolderExactly | pkg/labelmanager/retentionStore.go:69-94 | a label has one holder in every run if and only if it is held until the last time that has its name |
| LabelRuns.FirstOfPeriodOwns | pkg/labelmanager/manager.go:56-81 | for one well behaved format, whatever the others are like: the label of a period is held by the first backup attempted in it until a cleanup after its hold time, and never by another |
| LabelRuns.SameStartSameOwner | pkg/labelmanager/manager.go:63-74 | regular labels of two formats that read as the same time belong to the same backup |
| LabelRuns.SearchHasOneAnswer | pkg/labelmanager/retentionStore.go:100-139 | in every store so reached whose candidate labels are regular the search has one answer, whatever the map order |
| LabelRuns.HeldAreRegular | pkg/labelmanager/manager.go:66-71 | when each configured format is well behaved or never parses, all held labels are regular |
| RecurringNames.RecurringNameTwoAnswers | pkg/labelmanager/retentionStore.go:100-139 | a run of six events in which a name recurs after its hold time: the search has two answers, one of them made after the instant |
| RecurringNames.DefaultWeekRecurs | pkg/labelmanager/retention.go:25 | the default week label "2024-w01" is that of 30 December 2024 too, is not held until then, and goes to two backups in some run |
| LabelManager.Manager.Add | pkg/labelmanager/manager.go:56-81 | one attempt per configured format, other entries untouched; fails exactly when every attempt was a duplicate, that is when every label is known; the labels given are exactly the free ones that parse, in whatever order the formats come |
| LabelManager.AddWithoutLabel | pkg/labelmanager/manager.go:63-80 | for every format whose name for this time does not parse, an addition succeeds and adds nothing |
| LabelManager.AddTwice | pkg/labelmanager/manager.go:53-80 | a second addition at the same time fails and is not listed; the first has got the labels |
| LabelManager.Manager.CleanRetentions | pkg/labelmanager/manager.go:83-87 | drops exactly the labels that have passed the hold time of this configuration, or their own where it has none |
| LabelManager.Manager.GetClosestOlderBackup | pkg/labelmanager/manager.go:89-100 | an entry with a label of the latest time not after the instant, or none |
| LabelManager.AddReadsOnce | pkg/labelmanager/manager.go:63-74 | the attempts of one addition keep a run on schedule: configured formats, time order, one reading of the clock for each addition |
| LabelManager.DefaultsOutlastPeriods | pkg/labelmanager/retention.go:23-29 | the default retention holds the labels of a format to the end of their period, if a month lasts at most 31 days, a week seven days and so on |
| LabelManager.DefaultsOrdered | pkg/labelmanager/retention.go:23-29 | longer periods are held strictly longer |
| LabelManager.DailyLabelsLive | pkg/labelmanager/retention.go:26 | seven daily labels are live at once, eight at midnight |
| LabelManager.HourlyLabelsLive | pkg/labelmanager/retention.go:27 | twenty-four hourly labels are live at once, twenty-five on the hour |
| StorageProtocol.InvStep | pkg/storage/s3/s3.go:89-139 | every step of load, upload and cleanup keeps live stored backups in bucket and memory |
| StorageProtocol.AlwaysSafe | pkg/storage/s3/s3.go:89-318 | at every moment of every run, with crashes anywhere, a backup listed with a live label is in the bucket unless somebody else deleted it |
| StorageProtocol.LiveLabelStays | pkg/storage/s3/s3.go:89-318 | over every run without outside deletion: a label once in the label file stays there, and the object in the bucket, as long as it is live |
| StorageProtocol.ContentIsLastPut | pkg/storage/s3/s3.go:320-333 | at every moment of every run an object is what was last put under its name |
| StorageProtocol.CleanupUnderWay | pkg/storage/s3/s3.go:95-132 | at every moment of a cleanup only listed backups without live labels have lost their object |
| StorageProtocol.RestartedCleanup | pkg/storage/s3/s3.go:95-138 | from wherever a cleanup is under way, a later one leaves what it would have left from the start |
| StorageProtocol.RepeatedCleanup | pkg/storage/s3/s3.go:95-138 | a cleanup after a completed one ends like the later one alone |
| StorageProtocol.CompleteCleans | pkg/storage/s3/s3.go:89-139 | every run of cleanup steps that ends with nothing left to do and a save, in whatever order it deleted and forgot, leaves the same bucket and label file |
| StorageProtocol.CutShortAndRestarted | pkg/storage/s3/s3.go:89-139 | a cleanup cut short after any of its steps, then loaded and run to its end, leaves exactly the bucket and label file of one uninterrupted cleanup ending at the same time |
| StorageProtocol.DeletedExactly | pkg/storage/s3/s3.go:95-111 | a completed cleanup deletes an object if and only if the loaded labels list it and none of its labels stays under the configuration and at the time of this cleanup; the others keep their content |
| StorageProtocol.SavedExactly | pkg/storage/s3/s3.go:95-138 | it saves exactly the labels that stay, of the backups that still have their object |
| StorageProtocol.UploadsCanBeUnlisted | pkg/storage/s3/s3.go:257-277 | from an empty bucket, an upload that crashes before saving, or gets no label, leaves an unlisted object |
| StorageProtocol.UnlistedStays | pkg/storage/s3/s3.go:89-139 | over every run, an object that is not listed stays in the bucket until somebody else deletes it or a backup of its name gets a label |
| Storage.NewStorage | pkg/storage/s3/s3.go:279-306 | loads the stored labels; a missing file is an empty store |
| Storage.Storage.UploadFromReader | pkg/storage/s3/s3.go:254-277 | object first, then labels, then label file; every failure leaves a state the protocol allows, and is traced to a failing call; a named backup that arrived is refused labels exactly when all are known and gets exactly the free ones that parse; a new name ends up unlisted exactly when its object arrived and got no label |
| Storage.Storage.GrantLabels | pkg/storage/s3/s3.go:267-270 | labels are granted only to a backup whose object is there |
| Storage.Storage.CleanupBackups | pkg/storage/s3/s3.go:87-139 | its steps are those of one cleanup, complete when it succeeds; then exactly the listed objects without a staying label are gone, and bucket and label file are cleaned; else the bucket is where a cleanup can be restarted, or the save had arrived |
| Storage.Storage.DeleteUnretained | pkg/storage/s3/s3.go:98-111 | exactly the objects of entries without live labels go |
| Storage.Storage.ForgetMissing | pkg/storage/s3/s3.go:113-132 | exactly the entries whose object is gone are forgotten |
| Storage.Storage.MissingVanished | pkg/storage/s3/s3.go:113-132 | an entry with live labels is forgotten only if somebody else deleted its object |
| Storage.Storage.DownloadPITBackup | pkg/storage/s3/s3.go:182-197 | the object of a backup with a label of the latest time not after the instant; it is missing only if the answer's labels have expired or somebody else deleted it |
| Storage.EveryMomentSafe | pkg/storage/s3/s3.go:89-318 | every moment that the storages of a bucket ever made it pass was safe for every backup that nobody else deleted |
| Storage.OneAnswer | pkg/labelmanager/retentionStore.go:100-139 | in every storage, after any uploads, cleanups and restarts without outside deletions, the point-in-time search has one answer among regular labels |
| Storage.PromiseKept | pkg/storage/s3/s3.go:89-318 | a label that the label file of a bucket ever listed and that is still live is listed, and its object is there, unless somebody else deleted it |
| Storage.FirstSavedUploadOwns | pkg/storage/s3/s3.go:254-277 | the label file gives a label that outlasts its name to the first backup whose attempt at it was saved, until a cleanup after its hold time |
| Lineage.LineageIsSerial | pkg/storage/s3/s3.go:89-318 | the history that a storage makes meets the hypotheses of the theorems about labels; its cleanups never remove the holder of a label |
| Lineage.ReconfiguredCleanup | pkg/labelmanager/retentionStore.go:79-89 | labels granted under one configuration, cleaned up under another: exactly the backups go all of whose labels have passed the new hold time of their format, or the old one where the new configuration has none |
| Operation.Operate | pkg/storage/s3/s3.go:89-318 | from a fresh bucket, for every sequence of uploads, cleanups, restarts and outside deletions with failing calls: the run after each call and what the call did there; every moment was safe, every live promise is kept, and with well behaved formats the search has one answer |
| Operation.CleanUpUntilDone | pkg/storage/s3/s3.go:89-139 | load and clean up until it succeeds: whatever the failed attempts did, bucket and label file are those of a single cleanup at the end |
| PointInTime.RestoreAt | cmd/backup-runner/restore.go:60-95 | a file restored as of an instant is, byte for byte, what the requests of a backup with a label of the latest time not after the instant stored |
| Finalizers.ForeignKeepsClaim | cmd/backup-controller/logic.go:66-77 | users and other controllers neither unclaim an object nor save it from deletion nor touch resources or the stored hash |
| Finalizers.OthersAre | cmd/backup-controller/logic.go:217-230 | exactly our finalizer is left out, and the length tells whether it was there |
| Finalizers.OthersAgain | cmd/backup-controller/logic.go:176-184 | leaving ours out again, or putting it in front, does not change the others and their order |
| Finalizers.OtherFinalizers | cmd/backup-controller/logic.go:176-184 | the loop computes that list |
| Finalizers.Controller.HandleAdd | cmd/backup-controller/logic.go:28-51 | success means the object is claimed; no resource is touched, a claimed object is left alone, and ours is put in front of exactly the other finalizers that the object carried |
| Finalizers.Controller.HandleUpdate | cmd/backup-controller/logic.go:53-140 | an update that went through leaves all three resources written from the wanted ones, the claim, and the wanted hash unless writing it failed; with a matching hash nothing is written; a failure keeps the old hash; a doomed object is let go with nothing left, and is always let go when no call fails; the finalizers of others are kept |
| Finalizers.Controller.UpsertAll | cmd/backup-controller/logic.go:120-134 | all three resources exist with the wanted content, in any order of the map; fails only if a call may |
| Finalizers.Controller.HandleDelete | cmd/backup-controller/logic.go:142-174 | success means no owned resource exists and a claimed object has been let go, with the other finalizers that it carried; for a claimed object only failing calls prevent it |
| Finalizers.Controller.RemoveFinalizer | cmd/backup-controller/logic.go:217-245 | sends exactly the other finalizers, in their order, if ours is in the list, and nothing otherwise |
| Finalizers.NothingLeftBehind | cmd/backup-controller/logic.go:53-245 | at every moment of every run from a safe state at which the object was gone or not ours, none of the three resources existed |
| Finalizers.AlwaysSafe | cmd/backup-controller/logic.go:53-245 | by induction over every run: resources exist only while the object carries our finalizer |
| Finalizers.Operate | cmd/backup-controller/logic.go:28-174 | for every sequence of handler calls, with interference and failing calls: the run after each call and what the call did there, every patch with exactly the others' finalizers; every recorded state is safe, and nothing is left when the object is gone |
| Finalizers.DeletedObjectGoes | cmd/backup-controller/logic.go:73-77 | without failing calls one update lets a deleted object go |
| Status.SetSays | pkg/apis/v1/status.go:83-118 | setting a condition leaves one of its type, with the new status, and all others as they were |
| Status.SetIsTheOnly | pkg/apis/v1/status.go:83-118 | the set condition is the only one of its type, with the new status, generation, reason and message, and keeps its time exactly when it said the same before; all other conditions are as before |
| Status.ReadyIgnoresOrder | pkg/apis/v1/status.go:51-77 | reordering the conditions does not change "Ready" |
| Status.DatabaseBackupStatus.SetCondition | pkg/apis/v1/status.go:83-118 | the list with the condition replaced or appended, untouched when it says the same already |
| Status.DatabaseBackupStatus.CalculateReady | pkg/apis/v1/status.go:48-80 | "Ready" is False if some component is, else Unknown if some is, else True |
| Status.DatabaseBackupStatus.Set | pkg/apis/v1/status.go:41-46 | on a complete list: still complete, the component says just what was set, "Ready" fits with its reason and message, the rest is unchanged |
| Status.DatabaseBackupStatus.InitStatus | pkg/apis/v1/status.go:28-39 | three components and "Ready", each once, all False with the initial reason and message, whatever the list said before; other conditions stay |
| Status.ApplySets | pkg/apis/v1/status.go:28-118 | after any sequence of sets every type occurs once, each component says what it was last set to, with reason, message and generation, and "Ready" is derived from the three |

## Left out

- CryptoStream.CryptoReaderAt.ReadAt: does not model negative offsets and offsets near 2^63, nor the rounding of the floating-point minimum beyond 2^53.
- CryptoStream.CryptoWriteCloser.Close: is stated for one call after all writes, as its documentation demands; a second call would encrypt the uncleared buffer again.
- FooterText.ParseFooterPrinted: the parser reads the form the encoder writes; white space, other member orders and surrogate escapes, which a general JSON reader accepts, are refused here.
- ArchiveWriting.EncodeTo: file names are Unicode texts; names that are not valid UTF-8, whose bytes the encoder replaces, are not modelled.
- ArchiveReading.DecodeFrom: takes encrypted payloads to be at least as long as the footer; for shorter ones the decrypting reader gets a negative offset, which is not modelled.
- ArchiveReading.Unpack: gives the contents by name; the program joins names into paths and creates files, so that it fails on sound storage when one stored name is a directory of another ("x.sst" and "x.sst/y.sst"), and directories and file errors are not modelled. The same holds for RoundTrip.UnpackBackup.
- RoundTrip.CreateBackup: takes total sizes below 2^63 as given, since offsets are 64-bit numbers; the database is seen through its requests and its final result.
- LabelManager.Manager.Add: reads the clock once; the code reads it for every format, so that one addition may straddle the end of a period. The same holds for LabelManager.Manager.CleanRetentions.
- LabelRuns.FirstOfPeriodOwns: speaks of what was saved: grants that a crash loses before they are saved can be made again to another backup, and explicit removal of a holder frees its labels after the next load.
- LabelRuns.SearchHasOneAnswer: asks that the labels to choose from are regular, and Operation.Operate that all formats are well behaved; the default week format is not, at the end of some years.
- RetentionStore.RetentionStore.CleanupLabels: the difference between an absent and an empty list of labels, which only `IsEntryKnown` sees, is not modelled.
- Storage.Storage.CleanupBackups: the storage takes one reading of the clock per call, and calls on one location do not overlap; the program starts cleanup in the background.
- Storage.Storage.UploadFromReader: takes objects and the label file to be separate; a backup named ".labels" would overwrite the latter.
- Finalizers.Controller.HandleUpdate: generating the resources is a parameter; that the stored hash equals the applied resources is not an invariant of the program, and of the written status only the hash is modelled here, its conditions in `Status`.
- Status.DatabaseBackupStatus.InitStatus: says nothing about lists in which a type occurs twice; no method makes one from a list without repetitions.
- Range requests of the restore handler: the code passes an end where a length is expected, so only the full-file path is modelled.
- Key derivation, the block cipher, time formatting and parsing, YAML, and the HTTP, S3 and Kubernetes clients: library code behind stated assumptions; formatting in local time and parsing in UTC are taken to agree.
- Single-target storage without labels, the Postgres engine, resource generation, metrics and command lines: they would add easy members only.
- Derived names (namespace and name joined by "-"): one backup object and one storage path are modelled.
