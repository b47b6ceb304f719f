# local-s3-site-backup, modelled in Dafny

local-s3-site-backup takes a daily backup of a MySQL/MariaDB database or a folder of files. It
keeps a retention ladder of daily, weekly and monthly backups, both in a local folder tree and in
an S3 bucket. This project models the library behind that tool (`lib/`) and proves properties of
the model:

- **Naming.** `infos.dfy` covers the file-name template with its `[DATE]` token, the regular
  expression that recognises generated names, and decoding a file name or object key into a
  backup record. It also covers local paths and S3 key prefixes (`path.join`, `joinPrefix`) and
  the newest-first sort.
- **Calendar dates.** `dates.dfy` maps a calendar date to a day number. That day number stands
  in for the millisecond timestamp the source compares.
- **Retention rules.** `utils.dfy` decides whether today's backup is due (`shouldMakeBackup`),
  which backup to promote to weekly or monthly (`getPromotions`), and which backups exceed each
  generation's quota (`getExpiredInfos`).
- **S3 helpers.** `s3.dfy` models the rate-limit retry loop with exponential, capped backoff and
  the paginated bucket listing.
- **Filesystem.** `file_utils.dfy` is the filesystem those operations act on: a class holding a
  path-to-content map and a set of directories, with `readdir`, `unlink`, `copyFile`, `mkdir` and
  writing a file.
- **Local lifecycle.** `local_backups.dfy` covers:
  - scanning the three generation folders;
  - promotion by file copy and expiry by unlink;
  - creating the folders;
  - the argument lists of the `mysqldump`/`tar` → `gzip` → `openssl` pipelines;
  - writing a captured backup, and removing it after a failure.
- **Remote lifecycle.** `remote_backups.dfy` covers the same lifecycle in an S3 bucket, modelled
  as a class holding a key-to-content map: listing and decoding keys, server-side copy, one batch
  delete, and uploading the youngest local backup.

Backup records of both kinds share one datatype, `Infos.Info(name, location, container, date,
generation)`:

- a local file record's `location` is its full path and its `container` is its folder;
- an object record's `location` is its key and its `container` is its generation's key prefix.

A record's `stamp` is the day number of its date.

## Model

| member | source | states |
|---|---|---|
| Dates.DayNumberOrder | lib/utils.js:72 | comparing day numbers is comparing calendar dates (earlier iff smaller, equal iff the same day), so the source's `isBefore` on dates is `<` on stamps |
| Dates.PrevDay | lib/utils.js:82-83 | the previous calendar day, across month and year ends, has the day number one less |
| Dates.SubDays | lib/utils.js:82-83 | `subDays(today, k)`, stepping back `k` calendar days, has the day number `k` less than today's |
| Dates.SubDaysCompare | lib/utils.js:96-98 | a date is before (equal to) `subDays(today, k)` iff its day number is less than (equal to) today's minus `k` |
| Infos.DateDigitsRoundTrip | lib/infos.js:9-11 | the eight `YYYYMMDD` digits written for a date read back as that same date |
| Infos.DigitsDateCanonical | lib/infos.js:48-49 | eight digits that denote a valid date are exactly the digits that date is written as |
| Infos.NameFormatToRegex | lib/infos.js:5-7 | the pattern has a date capture iff the template contains `[DATE]`, splitting the template at its first occurrence; otherwise it matches the template literally |
| Infos.NameFormatToFileName | lib/infos.js:9-11 | the first `[DATE]` is replaced by the date's eight digits and the rest of the template is kept; a template without the token is returned unchanged |
| Infos.MatchesIffTemplated | lib/infos.js:5-7 | a name matches the template's pattern iff it is the template with its first `[DATE]` replaced by some eight digits |
| Infos.GeneratedNameMatches | lib/infos.js:5-11 | every generated name matches its template's pattern and captures exactly the date's digits |
| Infos.AddExtension | lib/infos.js:90-92 | the result is the name, a `.`, then the extension |
| Infos.AddExtensionCommutes | lib/infos.js:90-92 | adding an extension to the template and then generating a name gives the generated name plus that extension |
| Infos.JoinPrefixPair | lib/infos.js:29-42 | joining two segments drops one trailing `/` from the first and one leading `/` from the second, then puts a single `/` between them |
| Infos.JoinPrefixTriple | lib/infos.js:29-42 | joining three segments trims the middle one at both ends, the outer ones only on their inner side |
| Infos.PathJoinSplits | lib/local-backups.js:46-55 | a folder joined with a plain file name splits back into the folder (without its trailing `/`) and that name |
| Infos.BackupSubFolderPathsFromDest | lib/infos.js:13-19 | each generation's folder is the destination joined with the generation's name |
| Infos.FrequencyPrefixesFromPrefix | lib/infos.js:21-27 | each generation's key prefix is the user prefix joined with the generation's name |
| Infos.GenerationPathsShape | lib/infos.js:13-27 | each generation folder is the destination without its trailing `/`, then a `/`, then the generation's name, and its basename and dirname split back into those parts; the key prefixes have the same shape |
| Infos.ObjectKeyFromFileName | lib/infos.js:95-97 | a key is the generation's key prefix, a `/`, and the file name without a leading `/` |
| Infos.FileInfoFromName | lib/infos.js:44-63 | a record exists only for a name that matches the template; it keeps the name and the generation, its folder is the folder without its trailing `/`, its full path is folder `/` name, and the name is what the template generates for the record's date |
| Infos.CanonicalName | lib/infos.js:44-63 | a name whose captured digits form a valid date is the name the template generates for that date |
| Infos.FileInfoRoundTrip | lib/infos.js:44-63 | decoding a generated name gives back the date it was generated for, with the expected name, path, folder and generation |
| Infos.ObjectInfoFromKey | lib/infos.js:65-88 | a record exists only for a key that matches the prefixed template; it keeps the key and the generation, its prefix is the generation's key prefix, its name is the key with the first `<prefix>/` removed, and the key is what the prefixed template generates for the record's date |
| Infos.ObjectInfoRoundTrip | lib/infos.js:65-88 | decoding the key built for a generated name (with a plain prefix and a template without a leading `/`) gives back the date, that name, the key and the generation's prefix |
| Infos.KeyTemplate | lib/infos.js:95-97 | the key template is the generation prefix plus `/` plus the template, and generating under it commutes with adding the prefix |
| Infos.SortInfoNewestFirst | lib/infos.js:99 | the result is ordered by non-increasing stamp and is a permutation of the input |
| Infos.SortIsStable | lib/infos.js:99 | records with equal stamps keep their input order, as with `R.sort` |
| Infos.SortKeepsMembers | lib/infos.js:99 | a record is in the sorted list iff it is in the input |
| Infos.SortHeadIsFirstYoungest | lib/infos.js:99 | the head of the sorted list is the first input record of the largest stamp: every record before it in the input is strictly older |
| Utils.OfGeneration | lib/utils.js:69 | the records of one generation, no more than the input holds: a record is kept iff it has that generation |
| Utils.OfGenerationAppend | lib/utils.js:85-86 | filtering by generation distributes over concatenation |
| Utils.FirstOfGenerationIsYoungest | lib/utils.js:91-93 | in a newest-first list, the first record of a generation is at least as young as every record of that generation |
| Utils.ShouldMakeBackupByDay | lib/utils.js:65-73 | a backup is due iff there is no daily record or the youngest daily record is from before today; a daily record dated today means none is due |
| Utils.NoBackupDueAfterCapture | lib/utils.js:64-73 | once a daily record dated today is in a sorted list, no backup is due |
| Utils.GetPromotions | lib/utils.js:76-104 | no promotion without both quotas and a daily record; any promotion proposed is the youngest daily record, the same one for both generations |
| Utils.PromotionDecision | lib/utils.js:95-98 | a weekly (monthly) promotion is proposed iff both quotas are non-zero, a daily record exists and every weekly (monthly) record is at least 7 (30) days old; the promoted record is at least as young as every daily record |
| Utils.StaleIsSubDaysTest | lib/utils.js:82-98 | `Stale` on stamps is the source's test: no record of the generation, or its youngest record's date is before or equal to `subDays(today, days)` |
| Utils.StaleIffAllOld | lib/utils.js:96-98 | the youngest record of a generation being at least `days` old is the same as all of them being so |
| Utils.PromotionSettles | lib/utils.js:95-98 | a weekly record younger than 7 days (a monthly one younger than 30) blocks the next promotion of that generation |
| Utils.PromotionIdempotent | lib/utils.js:76-104 | after the requested promotions of today's daily record are added and the list re-sorted, nothing more is promoted the same day |
| Utils.SettledGeneration | lib/utils.js:95-98 | a generation that gains a record dated today, or already held one younger than the threshold, is no longer stale |
| Utils.ExampleNoPromotion | test/utils.getPromotions.test.js:4-58 | the "none to make" test: records from the 26th of January, checked on the 1st of February, give no promotion (for any year) |
| Utils.ExampleWeeklyPromotion | test/utils.getPromotions.test.js:60-114 | the "weekly promotion" test: the youngest daily record is promoted to weekly only |
| Utils.ExampleMonthlyPromotion | test/utils.getPromotions.test.js:116-170 | the "monthly promotion" test: the youngest daily record is promoted to monthly only |
| Utils.GetPromotionsAsWritten | lib/utils.js:96-98 | as written, a promotion is proposed only when that generation has no record at all |
| Utils.AsWrittenMissesWeeklyPromotion | lib/utils.js:96 | on the weekly test's records, the code as written proposes nothing where a weekly promotion is due |
| Utils.Beyond | lib/utils.js:122-124 | the part of a list beyond a quota has length max(0, length − quota) |
| Utils.ScanInvariant | lib/utils.js:111-133 | after any prefix of the list, the fold's counters are each generation's count and its expired list holds, per generation, exactly the records beyond the quota, in order |
| Utils.GetExpiredInfos | lib/utils.js:108-135 | per generation, the expired records are exactly those beyond the generation's quota, in input order, and they form a subsequence of the input |
| S3.Backoff | lib/s3.js:29-32 | the wait before each retry never exceeds the maximum |
| S3.BackoffStep | lib/s3.js:29-32 | one failure moves the wait from `Backoff(k)` to `Backoff(k+1)`: first `backoffMs`, then doubled, capped at the maximum |
| S3.RetryOnRateLimit | lib/s3.js:4-43 | the call is made at most `numRetries` times, each after the backoff wait for that attempt; every attempt but the last was rate-limited; the result is the last attempt's outcome; the loop stops early only on an outcome that is not a rate limit; with no retries allowed the result is "Unknown error." |
| S3.CappedBackoffExample | test/s3.retryOnRateLimit.test.js:127-160 | with 50 ms doubling capped at 200 ms, the waits are 0, 50, 100, 200, 200, 200 |
| S3.Fetched | lib/s3.js:47-51 | pages are requested while the previous one was truncated with a continuation token, and the last one fetched either failed or ends the listing |
| S3.ListAllObjects | lib/s3.js:45-53 | the first request has the caller's parameters and each further one carries the previous page's token; the result is the pages' contents in order, or the error of the page that failed |
| S3.ThreePageExample | test/s3.listAllObjects.test.js:3-40 | three pages, two of them truncated, list all three objects in order |
| FileUtils.FileSystem.Readdir | lib/file-utils.js:4 | a missing folder gives ENOENT (ENOTDIR when it or its parent is a file); otherwise each entry of the folder is listed exactly once |
| FileUtils.FileSystem.Unlink | lib/file-utils.js:5 | a file is removed; a directory gives EISDIR and a missing path ENOENT (ENOTDIR when its folder is a file), and neither changes anything; no path becomes both a file and a directory |
| FileUtils.FileSystem.CopyFile | lib/file-utils.js:6 | succeeds iff the source is a file, the target's folder exists and the target is not a directory; the target then holds the source's content and nothing else changes; no path becomes both a file and a directory |
| FileUtils.FileSystem.Mkdir | lib/file-utils.js:8-15 | an existing path gives EEXIST and a missing parent gives ENOENT (ENOTDIR when the parent is a file); otherwise exactly that directory is added and the folder is returned; no path becomes both a file and a directory |
| FileUtils.FileSystem.WriteFile | lib/local-backups.js:139 | in an existing folder and not over a directory, the file holds exactly the written content; directories are unchanged and stay apart from files |
| LocalBackups.MatchingNames | lib/local-backups.js:27 | the names kept are exactly the listed names that match the template, in listing order |
| LocalBackups.GetLocalBackups | lib/local-backups.js:23-28 | a missing folder gives ENOENT (ENOTDIR when it or its parent is a file); otherwise the result holds exactly the folder's entries that match the template |
| LocalBackups.FileInfosFromNames | lib/local-backups.js:32 | no more records than names; a record is in the result iff its name is listed and decodes to it |
| LocalBackups.AllNamesDecode | lib/local-backups.js:32 | when every name decodes, the records correspond one to one with the names, in order |
| LocalBackups.GetLocalInfosSingle | lib/local-backups.js:30-33 | a missing folder gives ENOENT; otherwise the records are exactly those decoded from the folder's matching entries, with the given generation |
| LocalBackups.GetLocalInfos | lib/local-backups.js:35-43 | succeeds iff all three folders exist, and otherwise reports the first missing one with its ENOENT or ENOTDIR code; on success the records are sorted newest-first and are exactly the records scanned from the three folders, and the first record is strictly younger than every record of a generation scanned before its own (daily before weekly before monthly) |
| LocalBackups.SortedHeadTieBreak | lib/local-backups.js:35-43 | sorting daily ++ weekly ++ monthly puts, on equal dates, the earlier generation's record first |
| LocalBackups.PromotedFileInfo | lib/local-backups.js:50-58 | the promoted record keeps the name and the date and takes the destination generation |
| LocalBackups.PromotedRecordRescans | lib/local-backups.js:45-60 | the record a promotion returns is exactly what a later scan of the destination folder decodes from the copy |
| LocalBackups.PromoteLocalBackup | lib/local-backups.js:45-60 | succeeds iff the copy is possible; the copy then holds the source's content and the promoted record is returned; a failed copy changes no file |
| LocalBackups.PromotedRecords | lib/local-backups.js:68-71 | at most two records, none of them daily: one weekly iff a weekly promotion is asked for, one monthly iff a monthly one is |
| LocalBackups.CopyPromotions | lib/local-backups.js:67-70 | both requested copies are made; the whole succeeds iff each copy is allowed; only the target paths change, and each receives the promoted file's content |
| LocalBackups.PromoteLocalBackups | lib/local-backups.js:64-74 | the result is the input plus the promoted records, re-sorted newest-first (a permutation of the two together); only the target files change and they hold the youngest daily backup's content; directories are unchanged |
| LocalBackups.LocalPromotionIdempotent | lib/local-backups.js:64-74 | running the local promotion a second time on the same day asks for nothing more |
| LocalBackups.WithoutLocations | lib/local-backups.js:86-89 | the records kept are exactly those whose path is not expired, in input order; with nothing expired the list is unchanged |
| LocalBackups.UnlinkAll | lib/local-backups.js:82-85 | every expired path is unlinked; success iff each was a file and none repeats; the files are the old ones minus those paths |
| LocalBackups.RemoveExpiredLocalBackups | lib/local-backups.js:77-90 | with nothing expired the input is returned untouched; otherwise the expired files are removed and the remaining records returned in order |
| LocalBackups.DistinctLocationsOfGeneration | lib/local-backups.js:86-89 | records with distinct paths still have distinct paths after filtering by generation |
| LocalBackups.KeptAreWithinQuota | lib/local-backups.js:77-90 | a record survives expiry iff it is among the first `quota` records of its generation |
| LocalBackups.MakeIfNotExists | lib/local-backups.js:95-101 | `mkdir` succeeds, or fails with EEXIST and counts as success; any other failure is returned; at most that folder is added |
| LocalBackups.EnsureBackupDestSubFolders | lib/local-backups.js:92-108 | on success, each generation folder exists (as a directory, or a file already at that path); if all three parents exist it succeeds; if all three folders already exist nothing changes; a failure is the ENOENT or ENOTDIR of one of the three folders; no file changes |
| LocalBackups.EffectiveIterationCount | lib/local-backups.js:136 | a missing or zero count falls back to 2000000; any other count is used as given |
| LocalBackups.DecimalString | lib/local-backups.js:117 | the argument is the count's decimal digits, without leading zeros |
| LocalBackups.EncryptStage | lib/local-backups.js:110-121 | an `openssl enc` stage exists iff a non-empty key is given; it encrypts with AES-256-CBC, a PBKDF2 key and a salt, its `-iter` argument spells the count and its password is the key |
| LocalBackups.DatabaseStages | lib/local-backups.js:141-155 | `mysqldump` with the password in `MYSQL_PWD`, `--no-tablespaces`, `--set-gtid-purged=OFF` iff the server is not MariaDB, then host, user, port and database name; then `gzip`; then `openssl` only when a key is given |
| LocalBackups.FilesStages | lib/local-backups.js:183-191 | `tar` of the basename of the source folder (without its trailing `/`), run in the source joined with `..`; then `gzip`; then `openssl` only when a key is given |
| LocalBackups.FilesStagesArchiveLastSegment | lib/local-backups.js:183-188 | for a source folder `<parent>/<segment>`, with or without a trailing `/`, `tar` archives exactly `<segment>` and runs in `<parent>/<segment>/..`, whose directory part is `<parent>` |
| LocalBackups.CaptureBackup | lib/local-backups.js:156-169 | success iff the pipeline completes, the destination's folder exists and the destination is not a directory; the file then holds the output; when the pipeline fails the file is removed (with a second unlink when the first fails) and the pipeline's own error is returned; a directory at the destination (EISDIR) or a missing folder (ENOENT, or ENOTDIR when it is a file) changes nothing; directories are unchanged and no path becomes both a file and a directory |
| LocalBackups.GeneratedNameHasNoSlash | lib/local-backups.js:138 | a name generated from a template without `/` has no `/` |
| LocalBackups.CapturedBackupIsScanned | lib/local-backups.js:181-205 | after a captured backup in the daily folder, the next scan finds a daily record dated today, so no further backup is due |
| RemoteBackups.Bucket.SourceKey | lib/remote-backups.js:45 | a `CopySource` names a key of this bucket iff it is the bucket's name, a `/`, and that key |
| RemoteBackups.Bucket.CopyObject | lib/remote-backups.js:43-46 | succeeds iff the source key exists; the target then holds its content; a failure changes nothing |
| RemoteBackups.Bucket.DeleteObjects | lib/remote-backups.js:64-67 | exactly the named keys are removed and one batch request is recorded |
| RemoteBackups.Bucket.Upload | lib/remote-backups.js:123-127 | the key holds exactly the uploaded body |
| RemoteBackups.KeyPatternIsDecodePattern | lib/remote-backups.js:76-77 | the pattern that filters keys is the pattern `objectInfoFromKey` decodes with |
| RemoteBackups.ObjectInfosFromKeys | lib/remote-backups.js:82 | the records are exactly those decoded from keys in the list |
| RemoteBackups.GetRemoteInfosSingle | lib/remote-backups.js:74-83 | the bucket is listed under the user prefix; a listing error is returned as is; otherwise the records are exactly the listed objects of the generation that decode |
| RemoteBackups.GetRemoteInfos | lib/remote-backups.js:85-95 | succeeds iff all three listings do, and otherwise returns the first error in daily, weekly, monthly order; on success the records are sorted newest-first and are exactly the three generations' records |
| RemoteBackups.PromotedObjectInfo | lib/remote-backups.js:48-56 | the promoted record keeps the name and the date, takes the new key, and takes the destination generation |
| RemoteBackups.PromotedKeyIsObjectKey | lib/remote-backups.js:41 | the copy's key is the key `objectKeyFromFileName` gives the name in the destination generation |
| RemoteBackups.PromotedObjectRescans | lib/remote-backups.js:39-58 | the record a promotion returns is exactly what a later listing decodes from the copy's key |
| RemoteBackups.PromoteRemoteBackup | lib/remote-backups.js:39-58 | the copy from `<bucket>/<key>` succeeds iff the source object exists; the new key then holds its content and the promoted record is returned; a failure changes nothing |
| RemoteBackups.PromotedObjectRecords | lib/remote-backups.js:34-35 | at most two records, none daily: one weekly iff a weekly promotion is asked for, one monthly iff a monthly one is |
| RemoteBackups.CopyObjectPromotions | lib/remote-backups.js:30-33 | both requested copies are made; the whole succeeds iff each source exists; only the target keys change, and each receives the promoted object's content |
| RemoteBackups.PromoteRemoteBackups | lib/remote-backups.js:27-37 | the result is the input plus the promoted records, re-sorted newest-first (a permutation of the two together); only the target keys change, each receiving the youngest daily object's content |
| RemoteBackups.RemotePromotionIdempotent | lib/remote-backups.js:27-37 | running the remote promotion a second time on the same day asks for nothing more |
| RemoteBackups.KeysOf | lib/remote-backups.js:66 | the batch names each expired record's key, in order |
| RemoteBackups.RemoveExpiredRemoteBackups | lib/remote-backups.js:61-72 | one batch delete naming exactly the expired keys (even when there are none); those objects are removed; the records whose key was not deleted are returned in order |
| RemoteBackups.YoungestLocalBackup | lib/remote-backups.js:106-118 | the scan fails as `getLocalInfos` does; it reports "no local backups" iff the folders exist and hold no backup; otherwise it returns a scanned record that no other scanned record is younger than, and on equal dates a daily record before a weekly one and a weekly before a monthly one, as the stable sort's first element |
| RemoteBackups.CopyYoungestLocalBackupToRemote | lib/remote-backups.js:105-135 | reports "no local backups" exactly when the scan finds none; on success the youngest local backup's content (with the same tie-break as `YoungestLocalBackup`) is uploaded under its daily key, and that key and the local path are returned; on failure nothing changes |

## Left out

- Streams and processes: `pipe` (lib/utils.js:19-62), spawning `mysqldump`, `tar`, `gzip` and `openssl`, and the write stream. The pipeline is a `PipelineOutcome` parameter of `LocalBackups.CaptureBackup`, and the model keeps only the argument lists and the cleanup.
- `report`/`reportM` (lib/utils.js:9-17): console logging.
- `ensureRemoteBucket` (lib/remote-backups.js:97-103): a single S3 call with no logic of its own.
- do-backup.js, the command-line entry point: it loads configuration, validates it and exits the process. It also imports names that lib/utils.js does not export.
- tests/augFrequency.test.js: it tests an `augFrequency` that does not exist.
- Time: `setTimeout` in `retryOnRateLimit` is modelled as the list of waits the loop would make, not as elapsed time.
- Dates: time zones, `parseISO` and `getTime` are replaced by the day number of a valid calendar date with a year from 0 to 9999.
  - A name whose eight digits form no valid date (for example `20190231`) becomes an `Invalid Date` record in the source. In the model it gives no record and is dropped from scans and listings.
- Date format: `dateFns.format(date, 'YYYYMMDD')` (lib/infos.js:10) uses the week-numbering-year and day-of-year tokens of date-fns 2. Those are protected tokens: without `useAdditionalWeekYearTokens` and `useAdditionalDayOfYearTokens`, `format` throws a `RangeError`, so `nameFormatToFileName` as written throws on every call. The model writes the calendar year, month and day, as the name's pattern and parsing expect.
- Regular expressions: the template is put into a regular expression unescaped. The model matches the text around `[DATE]` literally, so metacharacters such as `.` are not modelled as wildcards.
- Concurrency: `Promise.all` over the generations, the promotions and the unlinks runs in a fixed order. When several operations fail, the first one in array order is reported.
- File system: `path.join`'s normalisation of `..`, of `.` segments (`./backups` becomes `backups`) and of repeated `/` is not modelled; `PathJoin` only trims one separator on each side. The mode `0o770` given to `mkdir` is not modelled. Error codes inspect only a path and its folder: `ENOTDIR` is reported when one of those two is a file, and a file further up the path gives `ENOENT`.
- Inputs: `today` is a calendar date. Quotas are natural numbers, and the iteration count is written in decimal.
- Call sites in lib/remote-backups.js that do not match their callees are modelled after the callee's own signature:
  - `promoteRemoteBackup` is called without `bucket` (lines 31-32).
  - `joinPrefix` is given two strings instead of a list (line 41).
  - `getRemoteInfosSingle` is called with three arguments (lines 89-91). The model lists under the user prefix with the generation, as the signature at line 74 intends.
  - `get('Key', '')` is applied to the list of objects rather than to each object (line 80).
  - `getLocalInfos` is imported from `./infos`, which does not export it (line 5). The model uses lib/local-backups.js's `getLocalInfos`.
- `copyObject` is called without `Bucket` (lib/remote-backups.js:43-46). The model copies within the bucket named by the `CopySource`.
- Rate limits: only the bucket listing goes through `retryOnRateLimit`. Copies, deletes and uploads are single calls that always succeed or fail on missing data.
- The tests call `retryOnRateLimit` with an options object (test/s3.retryOnRateLimit.test.js:58). The function takes positional arguments, and the model follows the function.
- RemoteBackups.RemoveExpiredRemoteBackups: lib/remote-backups.js:64-67 passes `Objects` at the top level of the `deleteObjects` parameters. The S3 API (and the aws-sdk client's parameter validation) expects them under `Delete: {Objects}`, so as written the request is refused before anything is deleted. The model deletes the listed keys, as the code evidently intends.
- RemoteBackups.RemoveExpiredRemoteBackups: S3 rejects a `deleteObjects` request with an empty key list. The model records the empty batch and succeeds, so that error path is not modelled.
- RemoteBackups.GetRemoteInfosSingle: the listing is given as the sequence of page outcomes after retries. The model does not connect it to the bucket's current objects.
- LocalBackups.CaptureBackup: the destination is written in one step when the pipeline completes. Partial writes are not modelled.
- LocalBackups.CaptureBackup: the source registers no `error` handler on the write stream (lib/local-backups.js:139,182; `pipe` at lib/utils.js:19-62 only watches the child processes). A failing write stream is an unhandled `error` event that stops the process: the promise never settles and the unlink cleanup never runs. This happens with a directory at the destination, or when the destination's folder is missing or is a file. The model cannot stop the process, so it returns the code (`EISDIR`, `ENOENT` or `ENOTDIR`) and changes nothing.

## Findings

| source | as written | input that shows it | evidently intended | confidence | as-written member | corrected member |
|---|---|---|---|---|---|---|
| lib/utils.js:96-98 | `dateFns.isBefore(youngestWeekly, sevenDaysAgo)` compares the record object, not its `date`, so the comparison is never true and a promotion happens only when the generation is empty | the records of test/utils.getPromotions.test.js "Returns weekly promotion" (today 1 February, youngest weekly from 25 January): no weekly promotion | compare `youngestWeekly.date` (`youngestMonthly.date`) with the threshold, so a generation whose youngest record is at least 7 (30) days old is promoted | not executed | Utils.AsWrittenMissesWeeklyPromotion | Utils.ExampleWeeklyPromotion |
