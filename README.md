# LimeSurvey database backup service, modelled in Dafny

`backup-service/backup.py` is run periodically. Each run does five things in order:

1. It dumps the LimeSurvey MariaDB database to
   `/backups/limesurvey_backup_YYYYMMDD_HHMMSS.sql.gz`.
2. If a key is configured, it encrypts the dump with openssl into a `.enc` file and removes the plaintext.
3. It uploads the result to a Google Drive folder.
4. It keeps the five newest local dumps and unlinks the rest.
5. It applies a tiered retention policy to the Drive folder:
   - every backup of the last N hours is kept;
   - in each of the next bands, one backup per day, per `%W` week and per month is kept;
   - optionally one per year is kept, forever;
   - every other parsed backup is deleted; files whose names carry no backup timestamp are left alone.

The run exits with status 1 as soon as the dump, the encryption or the upload fails. The two pruning stages
log their errors and never change the exit status.

This project models that script in Dafny and proves properties of the model. Pure computations become
functions, and the loops of the script become methods with loop invariants. Each method is proved
against a reference function, and lemmas state what the script promises about those functions.

Modules, one per file:

- `Optional` (`optional.dfy`): the Option type.
- `Sequences` (`sequences.dfy`):
  - an order-preserving `Filter`;
  - the stable newest-first sort that `list.sort(key=..., reverse=True)` and `sorted(..., reverse=True)`
    perform, written `SortDesc`;
  - proofs that the sort is sorted, a permutation and stable, that it commutes with filtering, and that
    its head is the first element of maximal key.
- `Calendar` (`calendar.dfy`):
  - validity of the datetime fields `strptime` accepts;
  - day numbers and weekdays as `toordinal()` and `weekday()` compute them;
  - the C `%W` week number;
  - instants in microseconds, so that `now - timedelta(...)` is an integer subtraction, and the range
    check that raises `OverflowError`.
- `BackupName` (`backup_name.dfy`):
  - the artifact names `create_database_backup` and `encrypt_backup` produce, and `os.path.basename`;
  - `parse_backup_timestamp`: an unanchored leftmost regular-expression search followed by `strptime`,
    which either accepts the digits or raises `ValueError`.
- `Retention` (`retention.dfy`): the retention classifier of `cleanup_google_drive_backups` as pure
  functions of the clock reading, the policy and the Drive listing. It returns either an abort (a
  `strptime` failure or a cutoff overflow) or the set of ids kept and the list of backups to delete.
- `RetentionProperties` (`retention_properties.dfy`): what the classifier guarantees:
  - parsing, partition, and which backups survive;
  - a loser of a bucket is deleted;
  - a second run right after the deletions deletes nothing;
  - names that do not match are never touched;
  - exactly when the cleanup aborts.
- `DriveCleanup` (`drive_cleanup.dfy`): the function loop by loop, as the script runs it:
  - parsing;
  - the hourly keep;
  - the dictionary of lists per tier and the keeping of each list's first entry;
  - collecting `files_to_delete`;
  - the delete requests.

  Each loop is proved to compute its part of `Classify`.
- `LocalRotation` (`local_rotation.dfy`): `cleanup_old_local_backups`, meaning the glob, the mtime sort
  and the unlink loop.
- `Pipeline` (`pipeline.dfy`): `encrypt_backup` and `main` as sequential control flow, with the outcome
  of each external step as an input.

A consequence of the code as written is that the local rotation never removes encrypted dumps.
`encrypt_backup` removes the plaintext `.sql.gz` after a successful encryption, and the rotation glob
`limesurvey_backup_*.sql.gz` does not match `.sql.gz.enc`. So with encryption on, the local `.enc`
files are never rotated. `EncryptedNeverRotated` states this.

The comment at `backup.py:335` says "ISO week number", but the code formats `%Y-W%W`. That is the C
Monday-based week of the calendar year, not ISO 8601. The model follows the code.
`WeekSplitsAtNewYear` shows the difference: 2024-12-31 falls in week 53 of 2024 and 2025-01-01 in
week 0 of 2025, even though both share a Monday, so they land in two weekly buckets.

## Model

| member | source | states |
|---|---|---|
| BackupName.Timestamp | backup-service/backup.py:109 | `%Y%m%d_%H%M%S` is 15 characters: eight digits, `_`, six digits |
| BackupName.BackupFileName | backup-service/backup.py:110 | the dump's name is exactly as long as a match of the parsing pattern (40 characters): the prefix, the timestamp, then `.sql.gz` |
| BackupName.BackupPath | backup-service/backup.py:111 | the dump's path lies in `/backups` and its basename is the dump's file name |
| BackupName.EncryptedPath | backup-service/backup.py:62 | the encrypted path extends the plaintext path by `.enc`, and its basename is the plaintext's basename plus `.enc` |
| BackupName.MatchesAt | backup-service/backup.py:232 | the pattern `limesurvey_backup_(\d{8})_(\d{6})\.sql\.gz` matches at a position; the fourteen positions of its two groups then hold digits |
| BackupName.FieldsAt | backup-service/backup.py:234-236 | the fields `strptime` reads from the two groups: a four-digit `%Y` and two-digit month, day, hour, minute and second |
| BackupName.SearchFrom | backup-service/backup.py:232 | the position found is a match of `limesurvey_backup_(\d{8})_(\d{6})\.sql\.gz`, and no match starts before it; None means that no position matches |
| BackupName.ParseBackupTimestamp | backup-service/backup.py:229-237 | a parsed timestamp is always a datetime that Python can hold |
| BackupName.ParseIsLeftmostMatch | backup-service/backup.py:232-237 | no match anywhere gives None; otherwise the leftmost match decides: its fields are returned when they form a valid date, and `strptime` raises when they do not |
| BackupName.NameLayout | backup-service/backup.py:109-110 | the name `create_database_backup` builds has the prefix, then the zero-padded year, month, day, `_`, hour, minute, second, then `.sql.gz`, at fixed offsets |
| BackupName.ParseBackupFileName | backup-service/backup.py:109-110 | parsing a generated name, whatever follows it, gives back the timestamp it was built from |
| BackupName.NameRoundTrip | backup-service/backup.py:62 | the round trip holds for the plain dump name and for the name with `.enc` appended |
| BackupName.Basename | backup-service/backup.py:182 | `os.path.basename` never contains a `/` |
| BackupName.BasenameAfterSlash | backup-service/backup.py:111 | the basename of `dir + "/" + name` is `name` when `name` has no `/` |
| BackupName.UploadedNameParses | backup-service/backup.py:182-186 | the Drive name of the uploaded file, plain or encrypted, is the generated file name, and it parses back to the dump's timestamp |
| Calendar.InstantOrder | backup-service/backup.py:301 | Python's field-by-field order of datetimes is the order of their microsecond instants, in both directions |
| Calendar.IsValid | backup-service/backup.py:236 | the fields `strptime` accepts: a day is at most 31, February 29 exists only in leap years, and day 31 only in the seven long months |
| Calendar.WeekNumber | backup-service/backup.py:336 | the `%W` week number is between 0 and 53, and it is 0 exactly for the days before the year's first Monday |
| Calendar.WeekNumberIsMondayWeek | backup-service/backup.py:336 | within one year, two dates share a `%W` week exactly when they share the Monday that starts their week |
| Calendar.WeekSplitsAtNewYear | backup-service/backup.py:335-336 | the `%Y-W%W` key splits a Monday-to-Sunday week that crosses New Year: 2024-12-31 is in week 53 and 2025-01-01 in week 0 |
| Sequences.SortDesc | backup-service/backup.py:301 | the sort returns a permutation of its input |
| Sequences.SortIsSorted | backup-service/backup.py:301 | the sort puts the newest first |
| Sequences.SortIsStable | backup-service/backup.py:301 | backups with equal timestamps keep their listing order |
| Sequences.SortFilter | backup-service/backup.py:316-320 | the entries of one bucket appear in the sorted list in the order the sort gives that bucket alone |
| Sequences.SortHead | backup-service/backup.py:301 | the first element after sorting is the first element of the input with the maximal key |
| Sequences.FirstMaxIndex | backup-service/backup.py:324-326 | a scan finds the first position of a maximal key; this is the reference definition of a bucket's survivor |
| Retention.ParseListing | backup-service/backup.py:286-294 | a failure names a listed file whose matched digits are not a date; on success there are at most as many records as listed files, and each record's timestamp is what its name parses to |
| Retention.CutoffsFor | backup-service/backup.py:308-347 | the four cutoffs lie the hourly, daily, weekly and 30-day-month windows before `now`, all inside the datetime range; None only when one of them would leave it (`OverflowError`) |
| Retention.IsHourly | backup-service/backup.py:309 | the hourly test; every backup is hourly or in one of the four bucketed bands, and an hourly backup is not in the daily band |
| Retention.InBand | backup-service/backup.py:318-366 | the band tests at 318, 334, 350 and 366; with ordered cutoffs a band backup is older than the hourly cutoff and only the yearly band reaches past the monthly cutoff |
| Retention.BucketHead | backup-service/backup.py:323-372 | `backups[0]` of a bucket: a backup of the list in that band with that key, and None exactly when no backup falls in the bucket |
| Retention.KeyOf | backup-service/backup.py:319-367 | the bucket key has the tier's shape (`%Y-%m-%d`, `%Y-W%W`, `%Y-%m`, `%Y`), carries the backup's year, and its week or month field is in range |
| Retention.HourlyKept | backup-service/backup.py:309-311 | the hourly ids are ids of listed backups, and none are kept when no backup is recent |
| Retention.TierKept | backup-service/backup.py:316-374 | every id a tier keeps is the id of a backup in that tier's band; an empty band keeps nothing |
| Retention.KeepSet | backup-service/backup.py:304-374 | `files_to_keep` holds only listed ids and contains the hourly, daily, weekly and monthly keep sets, and the yearly one when `KEEP_YEARLY` is set |
| Retention.DeleteList | backup-service/backup.py:376-379 | `files_to_delete` holds exactly the listed backups whose id is not kept |
| Retention.Classify | backup-service/backup.py:286-379 | an empty listing deletes nothing; an invalid-date abort names a listed file; a plan never deletes a kept id and deletes only backups whose name carries their timestamp |
| RetentionProperties.ParseListingFails | backup-service/backup.py:286-294 | building `backups_by_time` fails exactly when some listed name matches but is not a valid date |
| RetentionProperties.AbortsExactly | backup-service/backup.py:286-409 | the cleanup aborts, deleting nothing, exactly when a matched name is not a date, or when some name has a timestamp and one of the four cutoffs falls outside the datetime range |
| RetentionProperties.ParseListingContents | backup-service/backup.py:286-294 | without a bad date, `backups_by_time` holds one record per listed entry that has a timestamp, in listing order |
| RetentionProperties.ParsedMembers | backup-service/backup.py:286-294 | every record comes from a listed entry with the same id and name, and every entry with a timestamp gives a record |
| RetentionProperties.ParsedIdsDetermine | backup-service/backup.py:290-294 | when the listing's ids are unique, an id determines its record |
| RetentionProperties.BucketWinner | backup-service/backup.py:314-326 | reference definition of a bucket's survivor, without sorting: None exactly when the bucket is empty, otherwise its newest backup, the first listed among equal timestamps |
| RetentionProperties.HeadOfSortedBucket | backup-service/backup.py:301-326 | after the newest-first sort, the first entry of each bucket list is that bucket's winner |
| RetentionProperties.TierKeepsWinners | backup-service/backup.py:314-374 | each bucketed tier keeps exactly the ids of the winners of its non-empty buckets |
| RetentionProperties.KeptIsWinner | backup-service/backup.py:323-326 | every id a tier keeps belongs to the winner of a bucket of that tier |
| RetentionProperties.WinnerIsKept | backup-service/backup.py:323-326 | every backup in a tier's band has a bucket winner, and that winner is kept |
| RetentionProperties.ClassifyPartitions | backup-service/backup.py:301-379 | kept ids are ids of parsed backups; a backup is deleted exactly when it was parsed and its id was not kept; no deleted id is kept; deletions come newest first |
| RetentionProperties.HourlyBackupsKept | backup-service/backup.py:307-311 | every backup at or after the hourly cutoff is kept |
| RetentionProperties.WinnersKept | backup-service/backup.py:314-374 | in every tier that runs, the winner of the bucket of each backup in the band is kept, and so is everything the tier keeps |
| RetentionProperties.NestedCutoffs | backup-service/backup.py:308-347 | when H hours ≤ D days ≤ W weeks ≤ 30·M days, the cutoffs are ordered |
| RetentionProperties.BandsDisjoint | backup-service/backup.py:318-366 | with ordered cutoffs, a backup lies in at most one bucketed band and is then not hourly |
| RetentionProperties.LoserNotKept | backup-service/backup.py:314-374 | with ordered cutoffs and unique ids, a backup of a bucket that is not its winner is kept by no band |
| RetentionProperties.LosersDeleted | backup-service/backup.py:314-379 | with nested windows and unique ids, every loser of a bucket is deleted |
| RetentionProperties.OldNotKept | backup-service/backup.py:361-374 | with yearly retention off, a backup older than the monthly cutoff is kept by no band |
| RetentionProperties.OldBackupsDeletedWithoutYearly | backup-service/backup.py:346-379 | with yearly retention off, nested windows and unique ids, every backup older than 30·M days is deleted |
| RetentionProperties.ParseWithoutIds | backup-service/backup.py:286-294 | removing entries from the listing removes exactly their records from `backups_by_time` |
| RetentionProperties.KeepSetWithout | backup-service/backup.py:304-374 | removing backups that were not kept leaves the keep set unchanged |
| RetentionProperties.RerunAfterDeletion | backup-service/backup.py:239-392 | after any set of unkept backups disappears from Drive, the next cleanup keeps the same ids and plans to delete the rest of the old delete list |
| RetentionProperties.RerunDeletesNothing | backup-service/backup.py:239-392 | once every planned deletion has happened, the next cleanup with the same clock reading and policy keeps the same ids and deletes nothing |
| RetentionProperties.DeletedIdsNotKept | backup-service/backup.py:376-379 | no id is both kept and deleted |
| RetentionProperties.UnmatchedNamesUntouched | backup-service/backup.py:288-289 | a listed file whose name does not match is never deleted and, with unique ids, never counted as kept |
| DriveCleanup.ParseFiles | backup-service/backup.py:286-294 | the loop that builds `backups_by_time` computes the parse of the listing, stopping at the first `strptime` failure |
| DriveCleanup.HourlyIds | backup-service/backup.py:309-311 | the ids of the hourly list are the hourly keep set |
| DriveCleanup.KeepHourly | backup-service/backup.py:307-311 | the hourly loop adds exactly the ids of the backups at or after the hourly cutoff |
| DriveCleanup.GroupByKey | backup-service/backup.py:316-320 | the grouping loop builds a dictionary whose keys are exactly the non-empty buckets of the band, each holding that bucket's backups in newest-first order |
| DriveCleanup.GroupsAreBuckets | backup-service/backup.py:316-320 | the dictionary built from a list holds exactly its non-empty buckets, in list order |
| DriveCleanup.KeepFirstOfEach | backup-service/backup.py:322-327 | whatever order the dictionary yields its keys in, the loop adds exactly the first id of each non-empty list |
| DriveCleanup.FirstIdsAreTierKept | backup-service/backup.py:322-327 | the first ids of the grouped lists are exactly the ids the tier keeps |
| DriveCleanup.KeepTier | backup-service/backup.py:314-374 | one bucketed tier (daily, weekly, monthly or yearly) adds exactly the tier's keep set |
| DriveCleanup.SelectForDeletion | backup-service/backup.py:376-379 | the loop collects the backups whose id is not kept, newest first |
| DriveCleanup.DeleteBackups | backup-service/backup.py:381-393 | the delete loop deletes every planned backup except those whose request raises `HttpError`, in order; `deleted_count` counts them |
| DriveCleanup.CleanupGoogleDriveBackups | backup-service/backup.py:239-409 | the whole cleanup decides exactly what `Classify` decides; on an abort nothing is deleted; otherwise every planned deletion is issued and the rejected ones are skipped |
| LocalRotation.MatchesGlob | backup-service/backup.py:216 | the glob `limesurvey_backup_*.sql.gz`; no name ending in `.enc` matches it |
| LocalRotation.Candidates | backup-service/backup.py:215-219 | the matching files of the directory, newest first, a permutation of the matching files |
| LocalRotation.Rotation | backup-service/backup.py:221-224 | nothing when at most five files match; otherwise a run of the files right after the five newest |
| LocalRotation.CleanupOldLocalBackups | backup-service/backup.py:212-227 | the loop removes the matching files after the five newest, stopping at the first unlink that raises |
| LocalRotation.UnlinkedIsPrefix | backup-service/backup.py:222-226 | the unlinked files are a prefix of the files to remove; all of them are unlinkable; the next file, if any, failed |
| LocalRotation.RotationRemovesTail | backup-service/backup.py:215-224 | with at most five matching files nothing is removed; otherwise a prefix of the files after the five newest is removed, all of them when no unlink fails |
| LocalRotation.RemovedAreMatching | backup-service/backup.py:215-216 | every removed file is in the directory and matches `limesurvey_backup_*.sql.gz` |
| LocalRotation.RemovedAreOldest | backup-service/backup.py:215-222 | no removed file is newer than any of the five kept files |
| LocalRotation.RotationPartitions | backup-service/backup.py:215-224 | without failing unlinks, the kept five and the removed files together are exactly the matching files |
| LocalRotation.EncryptedNeverRotated | backup-service/backup.py:216 | a `.enc` artifact never matches the glob and is never removed |
| LocalRotation.DumpNamesRotate | backup-service/backup.py:109-110 | a generated dump name matches the glob; the same name with `.enc` appended does not |
| Pipeline.EncryptBackup | backup-service/backup.py:53-105 | disabled: returns the path unchanged and touches nothing. Enabled: returns `path + ".enc"` exactly when openssl exits 0, the output exists and the plaintext removal succeeds, and None otherwise. The plaintext is removed only after openssl succeeded and its output exists |
| Pipeline.StagesReached | backup-service/backup.py:422-443 | a run reaches all five stages exactly when dump, encryption and upload succeed; otherwise it stops after at most three, after the first exactly when the dump fails |
| Pipeline.RunBackup | backup-service/backup.py:411-446 | stages run in the order dump, encrypt, upload, local prune, remote prune, stopping after the first failure among the first three. The exit status is 1 exactly then, and 0 otherwise. The upload gets the dump path, or the `.enc` path when encryption is on. The prune stages run the rotation and the retention models, and the Drive deletions are the planned ones minus those whose request failed; a run that stops early deletes nothing |
| Pipeline.ExitStatus | backup-service/backup.py:422-437 | the run exits 1 exactly when dump, encryption or upload fails; the last stage reached is then one of those three, and neither prune stage runs |
| Pipeline.UploadIsRecognised | backup-service/backup.py:182 | the name under which a run uploads, plain or encrypted, parses back to the dump's timestamp, so later cleanups see every upload |

## Left out

- Subprocesses are not modelled: we do not model mysqldump, gzip and openssl themselves, their arguments, or their output. Only their success is an input.
- The dump's partial file left behind on a failed dump is not modelled.
- The Google Drive service is not modelled:
  - authentication, the upload request, the listing query and its `pageSize=1000` limit, and `HttpError` details are left out;
  - the listing is an input sequence in the listing order Drive returns;
  - the set of ids whose delete request raises `HttpError` is an input.
- The early returns of `cleanup_google_drive_backups` when the credentials file is missing or the folder id is unset (lines 250-256) are not modelled. They are configuration checks outside the retention logic.
- The early return of `upload_to_google_drive` for those checks is not modelled separately. Every failure of the upload is the single input `uploadOk`.
- The file system is an input:
  - `glob`, `stat` and `unlink` are not modelled; the directory listing (name and modification time) is an input;
  - a failing unlink is modelled as a name in an input set, and it stops the loop as the single exception handler makes it do;
  - a failing `stat` is not modelled;
  - the modification time is an integer rather than a float.
- DriveCleanup.DeleteBackups: only `HttpError` from a delete request is modelled, which skips that backup and continues. Any other exception during the delete loop would reach the outer handler and stop the remaining deletions; that path is not modelled.
- Logging, the megabyte sizes and the kept counts are left out. They only feed log lines. `deleted_count` is modelled.
- Environment parsing is left out. The policy is any five values that `int()` and `== 'true'` can yield, and encryption is a boolean.
- `datetime.now()` is an input. The Drive cleanup takes an instant in microseconds. The dump name takes a whole-second datetime, because `strftime` drops the microseconds.
- Time zones are left out; naive datetimes have none.
- `list.sort` works in place on `backups_by_time`. The model computes the sorted list as a value with the same contents and order.
- The regular expression's `\d` is modelled as the ASCII digits `0`-`9`. Python's `\d` on `str` also matches other Unicode decimal digits. `strptime` would then read those digits in the same way or reject them, and the backup names the script writes contain only ASCII.
- `strptime` is modelled on the exactly eight and six ASCII digits the regular expression delivers. `%Y` formatting of years below 1000 is not needed, because `datetime.now()` never yields such a year here. Both the generated names and the parse use four digits.
- An instant is microseconds since 0001-01-01. `timedelta` arithmetic is exact integer arithmetic, and a result outside 0001-01-01 to 9999-12-31 is the `OverflowError` case.
