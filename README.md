# Plesk Google Drive backups: a verified model of the settings and backup rules

The extension lets a Plesk administrator connect a Google Drive account and
pick server directories. These are then archived on a schedule and uploaded
to a Drive folder named "Plesk Backups", which is trimmed to a retention count.
Two copies of the extension live side by side, and each is modelled as its own
variant:

- the top-level `plib/` tree, whose `BackupController` swallows scheduler
  errors, sends archives over 10 MiB in 1 MiB chunks and logs only to the host
  log, and whose `ApiController` validates credentials strictly and catches a
  failed token refresh;
- the nested `Plesk-GDrive-AutoBackups/plib/` tree, whose `BackupController`
  lets scheduler errors reach the caller, always uploads in one multipart
  request and keeps a capped event log under `backup_logs`, and whose
  `ApiController` lets a failed refresh propagate.

Everything the extension keeps lives in the host's key-value settings store
(`pm_Settings`). It is a `map<string, string>` in a `Store` class that all
controllers share, read through `Lookup` with a default. Other state and its
modules:

- The host scheduler is a `Scheduler` class over a sequence of tasks (`HostScheduler`).
- The Drive backup folder is a `Drive` class over a sequence of files, oldest first (`GoogleDrive`).
- What the host and Google answer is fixed per run as oracles: tar's exit code,
  the archive size, upload and delete errors, the chunk at which a resumable
  upload completes, whether the token has expired, and what a refresh returns.
- The timestamps `date()` and `time()` would supply are parameters.

The modules follow the program:

- `PhpRuntime`: the PHP behaviour the rules depend on (`empty()`, `(int)`,
  `strval`, `strpos`, `basename`, `htmlspecialchars`).
- `SettingsStore`, `JsonCodec`: the store, and the `json_encode` output for
  string lists and log entries, with the decoder that reads it back.
- `BackupSettings`: saveSettings' validation and writes, getSettings' defaults,
  and the frequency-to-cron table.
- `EventLog`: the capped, newest-first event log of the nested copy.
- `GoogleAuth`, `TopApiController`, `NestedApiController`: credentials, token,
  and client construction.
- `HostScheduler`, `GoogleDrive`, `BackupRun`: the cron replacement, the
  retention rule, the upload path, and the run's control flow.
- `TopBackupController`, `NestedBackupController`: the two controllers as
  classes whose methods change the store, the scheduler and the Drive folder.
- `RemoteStorageProvider`, `BackupTransport`: the two Plesk hooks' status
  answers over the settings store.

## Model

| member | source | states |
|---|---|---|
| PhpRuntime.DecimalStringRoundTrip | plib/library/BackupController.php:37 | an integer written as decimal text reads back as the same integer under `(int)`, for negative numbers too |
| PhpRuntime.ContainsItself | plib/library/BackupController.php:72 | a command that embeds the script path anywhere matches the `strpos(...) !== false` test |
| PhpRuntime.Basename | plib/library/BackupController.php:137 | `basename` of a path never contains a slash, so archive names are plain file names |
| PhpRuntime.BasenameLastComponent | plib/library/BackupController.php:137 | `basename` of a path is its last component, whatever comes before it and however many slashes follow it |
| PhpRuntime.HtmlEscapeIsInert | plib/hooks/RemoteStorageProvider.php:150 | `htmlspecialchars` output contains none of `<`, `>`, `"`, `'` |
| PhpRuntime.HtmlEscapePlain | plib/hooks/RemoteStorageProvider.php:150 | text with no markup character passes through `htmlspecialchars` unchanged |
| SettingsStore.LookupAfterSet | tests/RemoteStorageProviderTest.php:33-41 | a read after a write gives the written value for that key, and every other key reads as it did before the write |
| SettingsStore.Store.Set | tests/RemoteStorageProviderTest.php:33-36 | a write replaces exactly that key's value and leaves every other key as it was |
| JsonCodec.Hex4RoundTrip | plib/library/ApiController.php:59 | the four hex digits of a `\uXXXX` escape parse back to the code unit written |
| JsonCodec.EscapeCharThenParse | plib/library/ApiController.php:59 | one escaped character, followed by any text, parses back to that character and leaves the text |
| JsonCodec.QuoteRoundTrip | plib/library/ApiController.php:57-70 | the JSON string `json_encode` writes for a text parses back to the text with nothing left over |
| JsonCodec.DecodeStringRoundTrip | plib/library/ApiController.php:57-70 | `json_decode` of what `json_encode` wrote for a string gives the same string |
| JsonCodec.StringsRoundTrip | plib/library/BackupController.php:35-53 | the stored `backup_dirs` text decodes to exactly the directory list that was encoded |
| JsonCodec.EntryRoundTrip | Plesk-GDrive-AutoBackups/plib/library/BackupController.php:268-279 | an encoded log entry parses back to the same timestamp, level and message, followed by whatever came after it |
| JsonCodec.LogRoundTrip | Plesk-GDrive-AutoBackups/plib/library/BackupController.php:275-287 | the stored `backup_logs` text decodes to exactly the list of entries that was encoded |
| BackupSettings.ParseFrequency | plib/library/BackupController.php:25-27 | a frequency is accepted exactly when it is daily, weekly or monthly, and is then named by that text |
| BackupSettings.FrequencyNameRoundTrip | plib/library/BackupController.php:36 | the name a frequency is stored under parses back to the same frequency |
| BackupSettings.ScheduleTable | plib/library/BackupController.php:82-93 | daily, weekly and monthly map to `0 2 * * *`, `0 2 * * 0` and `0 2 1 * *`; different frequencies get different schedules; any other text gets '' |
| BackupSettings.ValidateSettings | plib/library/BackupController.php:21-32 | an empty directory list, then a bad frequency, then a cast retention count outside [1, 100] each throw their own message in that order; otherwise the validated settings carry the inputs |
| BackupSettings.WriteSettingsFrame | plib/library/BackupController.php:35-37 | a successful save writes exactly `backup_dirs`, `backup_freq` and `retention_count`; every other key keeps its value |
| BackupSettings.SettingsRoundTrip | plib/library/BackupController.php:35-56 | getSettings after saveSettings returns the saved directories, frequency and retention count |
| BackupSettings.DefaultSettings | plib/library/BackupController.php:48-56 | on an empty store and on the installed defaults, getSettings gives no directories, 'daily' and 5 |
| BackupSettings.WellFormedSettingsRead | plib/library/BackupController.php:50-55 | well-formed settings read back as a directory list, a known frequency and a retention count in [1, 100] |
| BackupSettings.WriteSettingsWellFormed | plib/library/BackupController.php:29-37 | settings that pass validation leave the settings keys well formed once written |
| BackupSettings.InstallDefaultsWellFormed | plib/hooks/ConfigDefaults.php:11-23 | the values the extension is installed with are well-formed settings |
| HostScheduler.Scheduler.RemoveTask | plib/library/BackupController.php:74 | a removal returns the host's error and changes nothing, or drops the task with that id |
| HostScheduler.Scheduler.AddCronJob | plib/library/BackupController.php:96 | an addition returns the host's error and changes nothing, or appends one task with a fresh id, the schedule and the command |
| HostScheduler.WithoutIdAt | plib/library/BackupController.php:74 | with distinct ids, removing a listed task's id removes exactly that task and keeps the order of the rest |
| HostScheduler.WithoutIdDistinct | plib/library/BackupController.php:74 | removing a task keeps the task ids distinct |
| HostScheduler.SurvivingMembers | plib/library/BackupController.php:71-79 | a task is left by the removal loop exactly when it does not run the backup script or the host refused to remove it |
| HostScheduler.RemovalLoopStep | plib/library/BackupController.php:71-79 | one turn of the removal loop turns the list with i tasks handled into the list with i + 1 handled |
| HostScheduler.FirstRefusal | Plesk-GDrive-AutoBackups/plib/library/BackupController.php:71-75 | the index found is that of the first task that runs the script and whose removal the host refuses, or the end of the list |
| HostScheduler.ReplacementLeavesOneJob | plib/library/BackupController.php:71-96 | when the host refuses nothing, exactly one task runs the backup script afterwards, the new one, and every task that does not run it is kept |
| GoogleDrive.Drive.GetOrCreateFolder | plib/library/BackupController.php:257-281 | the backup folder exists afterwards with its files unchanged, and it was created exactly when it was missing |
| GoogleDrive.Drive.CreateMultipart | plib/library/BackupController.php:241-250 | a multipart upload throws Drive's error and changes nothing, or adds the new file as the newest of the folder |
| GoogleDrive.Drive.NextChunk | plib/library/BackupController.php:226 | a chunk returns false and changes nothing until Drive reports completion, which adds the new file as the newest |
| GoogleDrive.Drive.Delete | plib/library/BackupController.php:323 | a delete returns Drive's error and changes nothing, or removes the file with that id |
| GoogleDrive.WithoutFileOrdered | plib/library/BackupController.php:323 | deleting a file keeps the folder in creation order |
| GoogleDrive.DeleteCount | plib/library/BackupController.php:311-314 | the number of files to delete is zero exactly when there are no more files than are kept, and never more than there are |
| GoogleDrive.RetentionKeepsNewest | plib/library/BackupController.php:310-325 | retention deletes exactly the max(0, n - K) oldest files as a prefix, keeps the K newest, and every deleted file is older than every kept one |
| GoogleDrive.FourOldOneNewKeepThree | plib/library/BackupController.php:311-325 | four earlier backups, one new upload and K = 3: the two oldest are deleted and the newest three, the new one among them, are kept |
| GoogleDrive.FirstDeleteFailure | plib/library/BackupController.php:319-325 | the index found is that of the first file to delete whose deletion Drive refuses, or the number of files to delete |
| GoogleDrive.RetentionOnlyDeletesOldest | plib/library/BackupController.php:294-325 | whatever Drive refuses, the pass removes only a prefix of the oldest max(0, n - K) files and keeps the K newest; with no refusal it leaves exactly the retained files |
| GoogleDrive.FirstPage | plib/library/BackupController.php:301-307 | as written, the listing the retention pass reads is the oldest 100 files of the folder, or all of them when there are no more |
| GoogleDrive.PageCapStopsRetention | plib/library/BackupController.php:301-325 | as written, a folder of more than 100 archives loses only 100 - K files in a pass with no refusal, so more than K remain; with K = 100 nothing is deleted |
| GoogleDrive.FullListingKeepsExactly | plib/library/BackupController.php:301-325 | with the whole folder listed, a pass with no refusal leaves exactly the K newest files, however many the folder holds |
| BackupRun.QuoteInnerPlain | plib/library/BackupController.php:155-157 | `escapeshellarg` leaves a text without single quotes unchanged between the quotes it adds |
| BackupRun.QuotedPathMisses | plib/library/BackupController.php:157-170 | as written, the quoted path names no file on disk: the Drive file gets a trailing quote, the chunked path is never taken, an empty body is sent and the archive is not removed |
| BackupRun.UnquotedPathUploads | plib/library/BackupController.php:136-170 | with the plain path the upload is named after the directory, is chunked exactly above 10 MiB, sends the archive's bytes and removes the archive |
| BackupRun.ChunkedThresholdBoundary | plib/library/BackupController.php:203 | a file of exactly 10 MiB goes in one multipart request, and any larger file takes the chunked path |
| BackupRun.ChunkReadsCoverFile | plib/library/BackupController.php:222-227 | the chunk reads before EOF are full MiB reads, the last read is short, and together they cover the file |
| BackupRun.FirstCompletion | plib/library/BackupController.php:222-227 | the chunk loop stops at the first chunk at which Drive reports completion, or finds none before EOF |
| BackupRun.UploadFailure | plib/library/BackupController.php:203-251 | a chunked upload fails with 'Failed to upload large file' exactly when no chunk completes before EOF; any other upload fails with Drive's own error |
| BackupRun.DirFailure | plib/library/BackupController.php:162-167 | a directory fails with 'Failed to create backup archive for' when tar exits non-zero, else with its upload's failure |
| BackupRun.FirstFailing | plib/library/BackupController.php:135-171 | the index found is the first directory whose archiving or upload fails, and every earlier one succeeds |
| BackupRun.NewFilesKeepOrder | plib/library/BackupController.php:302-306 | uploads are appended after everything in the folder, so the folder stays in creation order |
| BackupRun.FirstFailureSkipsRest | plib/library/BackupController.php:162-177 | the first failing directory's error is the run's; later directories are not uploaded and no retention runs |
| BackupRun.AllDirectoriesThenRetention | plib/library/BackupController.php:135-181 | a run in which every directory succeeds uploads one archive per directory in order, then ends Completed with the retained newest files |
| EventLog.PushCappedShape | Plesk-GDrive-AutoBackups/plib/library/BackupController.php:279-284 | the new entry is first, the earlier entries follow in order, and the length is one more, capped at 100 |
| EventLog.FullLogStaysFull | Plesk-GDrive-AutoBackups/plib/library/BackupController.php:282-284 | a log of 100 entries stays at 100, and the previous entries shift back by the number of entries added |
| EventLog.PushAll | Plesk-GDrive-AutoBackups/plib/library/BackupController.php:265-287 | after any run of logged events the log holds at most 100 entries |
| EventLog.PushAllNewest | Plesk-GDrive-AutoBackups/plib/library/BackupController.php:279 | after a run of logged events, the newest entry is the last event logged |
| EventLog.LogDefault | Plesk-GDrive-AutoBackups/plib/library/BackupController.php:293-297 | a log never written reads as the empty list, on an empty store and on the installed defaults |
| EventLog.WriteEventRead | Plesk-GDrive-AutoBackups/plib/library/BackupController.php:265-297 | getLogs after logBackupEvent returns the capped log with the new entry first, and no key but `backup_logs` changes |
| EventLog.StoresRead | Plesk-GDrive-AutoBackups/plib/library/BackupController.php:293-297 | getLogs returns exactly the log the store holds |
| EventLog.StoresWrite | Plesk-GDrive-AutoBackups/plib/library/BackupController.php:279-287 | writing back the pushed log keeps every other key, and the store then holds the pushed log |
| GoogleAuth.CredentialsRoundTrip | plib/library/ApiController.php:35-52 | getCredentials after saveCredentials returns the saved values, and only the three credential keys change |
| GoogleAuth.CredentialsDefault | plib/library/ApiController.php:45-52 | credentials never saved read back as three empty strings |
| GoogleAuth.GetToken | plib/library/ApiController.php:66-70 | an empty stored token reads as null |
| GoogleAuth.TokenRoundTrip | plib/library/ApiController.php:57-70 | getToken after saveToken(t) returns t |
| GoogleAuth.InitialClient | plib/library/ApiController.php:77-97 | building a client throws 'Google API credentials not configured' exactly when the id or secret is empty; otherwise the client carries the stored credentials, and the stored token exactly when one is present |
| GoogleAuth.SavedTokenIsLoaded | plib/library/ApiController.php:95-103 | a token saved by saveToken is loaded into the next client built from the store |
| GoogleAuth.ClearedTokenIsNotLoaded | plib/library/ApiController.php:95-97 | with the stored token emptied, the next client carries no token |
| TopApiController.CredentialError | plib/library/ApiController.php:24-32 | 'Invalid Client ID', 'Invalid Client Secret' and 'Invalid Redirect URI' are raised exactly under their own conditions, in that order, and nothing is raised exactly when all three values are valid |
| TopApiController.CreateClientAsWritten | plib/library/ApiController.php:75-112 | the guard throws, a successful refresh is saved, and a failed refresh ends in the \Error of the call to the undefined clearToken |
| TopApiController.CreateClient | plib/library/ApiController.php:75-112 | as written, except that a failed refresh empties the stored token and returns the client, so the call never ends in an \Error |
| TopApiController.RefreshFailureIsFatal | plib/library/ApiController.php:100-107 | with credentials set and a stored token, an expired token whose refresh fails always ends in the \Error |
| TopApiController.RefreshFailureWitness | plib/library/ApiController.php:100-107 | one concrete store and refresh failure on which the call as written ends in the \Error |
| TopApiController.RefreshFailureDisconnects | plib/library/ApiController.php:104-107 | with the correction, a failed refresh returns a client, empties the stored token, and the next client is built without a token |
| TopApiController.CorrectionIsLocal | plib/library/ApiController.php:100-107 | the corrected call agrees with the call as written on every input except a failed refresh |
| TopApiController.RefreshedTokenPersists | plib/library/ApiController.php:100-103 | a refreshed token is saved, and the next client built from the store carries it |
| TopApiController.ApiController.SaveCredentials | plib/library/ApiController.php:21-40 | a rejected input throws its message and writes nothing; an accepted one writes exactly the three credential keys |
| TopApiController.ApiController.SaveToken | plib/library/ApiController.php:57-61 | the token is stored as its JSON text and getToken returns it |
| TopApiController.ApiController.CreateGoogleClientAsWritten | plib/library/ApiController.php:75-112 | the outcome and the store are those of the call as written |
| TopApiController.ApiController.CreateGoogleClient | plib/library/ApiController.php:75-112 | the outcome and the store are those of the corrected call |
| NestedApiController.CredentialError | Plesk-GDrive-AutoBackups/plib/library/ApiController.php:19-21 | 'All API credential fields are required' is raised exactly when any of the three values is empty |
| NestedApiController.CreateClient | Plesk-GDrive-AutoBackups/plib/library/ApiController.php:64-93 | the guard throws with the store unchanged; a failed refresh throws its own exception with the store unchanged; a successful refresh is saved; the client carries the stored redirect URI |
| NestedApiController.RefreshedTokenPersists | Plesk-GDrive-AutoBackups/plib/library/ApiController.php:86-89 | a refreshed token is saved, and the next client built from the store carries it |
| NestedApiController.ApiController.SaveCredentials | Plesk-GDrive-AutoBackups/plib/library/ApiController.php:16-29 | a rejected input throws and writes nothing; an accepted one writes exactly the three credential keys as text |
| NestedApiController.ApiController.SaveToken | Plesk-GDrive-AutoBackups/plib/library/ApiController.php:46-50 | the token is stored as its JSON text and getToken returns it |
| NestedApiController.ApiController.CreateGoogleClient | Plesk-GDrive-AutoBackups/plib/library/ApiController.php:64-93 | the outcome and the store are those of CreateClient |
| TopBackupController.UnconfiguredRunAborts | plib/library/BackupController.php:113-116 | a site with no credentials fails with the guard's message, and a site with no token fails with 'Not connected to Google Drive', before any archiving |
| TopBackupController.ClientKeepsSettings | plib/library/BackupController.php:110-113 | building the client changes at most the token, so the settings stay well formed |
| TopBackupController.AsWrittenRunAgrees | plib/library/BackupController.php:110-116 | outside a failed refresh, runBackup with createGoogleClient as written connects, aborts and leaves the store exactly as with the corrected call |
| TopBackupController.FailedRefreshRun | plib/library/BackupController.php:108-112 | for a connected site whose expired token cannot be refreshed, the run as written ends in the \Error, while the corrected call returns a client and empties the stored token |
| TopBackupController.BackupController.SaveSettings | plib/library/BackupController.php:18-43 | a failed validation throws and changes neither the store nor the scheduler; otherwise the three keys are written, the cron job replaced, and the call succeeds whatever the scheduler answers |
| TopBackupController.BackupController.ConfigureCronJob | plib/library/BackupController.php:62-102 | the tasks left are the survivors of the removal loop, then the new job unless the host refused it; the call always returns true |
| TopBackupController.BackupController.UploadFileToDrive | plib/library/BackupController.php:191-252 | the folder exists afterwards; the upload fails exactly as UploadFailure says, and on success the archive is the newest file in the folder |
| TopBackupController.BackupController.ApplyRetentionPolicy | plib/library/BackupController.php:286-326 | a missing folder is left alone; otherwise the error and the remaining files are those of the retention rule |
| TopBackupController.BackupController.ArchiveDirectories | plib/library/BackupController.php:135-171 | the directories before the first failing one are uploaded in order, its error is returned, and none after it is touched |
| TopBackupController.BackupController.RunBackup | plib/library/BackupController.php:107-186 | with the corrected createGoogleClient: an unconnected run fails before archiving and leaves Drive alone; a connected run ends as the archive loop and retention pass determine; every failure is returned |
| TopBackupController.BackupController.RunBackupAsWritten | plib/library/BackupController.php:107-186 | with createGoogleClient as written: a failed refresh escapes the run as an \Error before archiving, with Drive untouched and the store unchanged; any other outcome ends the run as RunBackup's does |
| TopBackupController.BackupController.RunSteps | plib/library/BackupController.php:135-181 | the result and the folder are those of the run's control flow on the stored directories and retention count |
| NestedBackupController.CronRefusalStops | Plesk-GDrive-AutoBackups/plib/library/BackupController.php:62-94 | the call succeeds exactly when the host refuses nothing, and then gives the top-level copy's task list; a refused removal throws, adds nothing and keeps the refused task and every later one |
| NestedBackupController.UnconnectedRunAborts | Plesk-GDrive-AutoBackups/plib/library/BackupController.php:102-108 | missing credentials, a missing token or a failed refresh stop the run before archiving with their own messages; a stored token that is not expired lets it proceed |
| NestedBackupController.ClientKeepsStore | Plesk-GDrive-AutoBackups/plib/library/BackupController.php:102-105 | building the client changes at most the token, so the settings and the log are as before |
| NestedBackupController.SettingsIgnoreLogs | Plesk-GDrive-AutoBackups/plib/library/BackupController.php:287 | writing the log keeps the settings well formed |
| NestedBackupController.DeletedEvents | Plesk-GDrive-AutoBackups/plib/library/BackupController.php:253-259 | one log entry per deleted file, naming it, in deletion order |
| NestedBackupController.RetentionPass | Plesk-GDrive-AutoBackups/plib/library/BackupController.php:245-259 | the delete loop's error and remaining files are those of the retention rule, and it logs the plan and one entry per deleted file |
| NestedBackupController.BackupController.ReadLogs | Plesk-GDrive-AutoBackups/plib/library/BackupController.php:293-297 | the stored log decodes to the log the controller holds |
| NestedBackupController.BackupController.LogBackupEvent | Plesk-GDrive-AutoBackups/plib/library/BackupController.php:265-288 | the log becomes the capped log with the new entry first, written back as a JSON list, and no other key changes |
| NestedBackupController.BackupController.LogStep | Plesk-GDrive-AutoBackups/plib/library/BackupController.php:265-288 | an INFO entry is logged after the run's earlier events, and the store still differs only in the log |
| NestedBackupController.BackupController.SaveSettings | Plesk-GDrive-AutoBackups/plib/library/BackupController.php:18-43 | a failed validation throws and writes nothing; otherwise the three keys are written, and a scheduler refusal is then thrown with the settings already saved |
| NestedBackupController.BackupController.ConfigureCronJob | Plesk-GDrive-AutoBackups/plib/library/BackupController.php:62-94 | the error and the task list are those of the stop-at-first-refusal rule |
| NestedBackupController.BackupController.UploadFileToDrive | Plesk-GDrive-AutoBackups/plib/library/BackupController.php:163-186 | the folder exists afterwards; a multipart upload throws Drive's error or adds the archive as the newest file; folder creation and a successful upload are logged |
| NestedBackupController.BackupController.GetOrCreateFolder | Plesk-GDrive-AutoBackups/plib/library/BackupController.php:191-215 | the folder exists afterwards with its files unchanged, and its creation is logged exactly when it had to be made |
| NestedBackupController.BackupController.ApplyRetentionPolicy | Plesk-GDrive-AutoBackups/plib/library/BackupController.php:220-260 | a missing folder, or one holding no more files than are kept, is left alone and nothing is logged; otherwise the error and remaining files are the retention rule's, and the plan and each deletion are logged |
| NestedBackupController.BackupController.DeleteOldest | Plesk-GDrive-AutoBackups/plib/library/BackupController.php:252-259 | the oldest files are deleted in order up to the first refusal, whose error is returned, and each deletion is logged |
| NestedBackupController.BackupController.TryRun | Plesk-GDrive-AutoBackups/plib/library/BackupController.php:101-153 | an unconnected run throws before logging anything; a connected run ends as the run's control flow determines |
| NestedBackupController.BackupController.RunSteps | Plesk-GDrive-AutoBackups/plib/library/BackupController.php:111-153 | the result and folder are those of the run's control flow; the start is logged first, and a run that succeeds logs its completion last |
| NestedBackupController.BackupController.RunBackup | Plesk-GDrive-AutoBackups/plib/library/BackupController.php:99-158 | every entry but the last is INFO; the newest entry is one ERROR entry with the failure's message, or the completion; the store otherwise ends as createGoogleClient leaves it |
| NestedBackupController.BackupController.BackUpDirectory | Plesk-GDrive-AutoBackups/plib/library/BackupController.php:127-143 | the directory is logged first, then fails or succeeds exactly as DirFailure says, and the folder changes accordingly |
| NestedBackupController.BackupController.ArchiveDirectories | Plesk-GDrive-AutoBackups/plib/library/BackupController.php:127-143 | the directories before the first failing one are uploaded in order, its error is returned, and none after it is touched |
| RemoteStorageProvider.IsConfiguredExactly | plib/hooks/RemoteStorageProvider.php:56-70 | configured exactly when the client id and access token are both stored and neither is '' or '0'; false when the settings cannot be read |
| RemoteStorageProvider.IsConfiguredCases | tests/RemoteStorageProviderTest.php:116-140 | cleared keys are not configured, a test id and token are configured, and unreadable settings are not configured |
| RemoteStorageProvider.GetStatus | plib/hooks/RemoteStorageProvider.php:80-96 | the status is NOT_CONFIGURED exactly when not configured, and is never ERROR |
| RemoteStorageProvider.Validate | plib/hooks/RemoteStorageProvider.php:121-129 | validate throws, with the not-configured message, exactly when the status is NOT_CONFIGURED |
| RemoteStorageProvider.StatusMessageCases | plib/hooks/RemoteStorageProvider.php:139-157 | 'Not configured' exactly when not configured; otherwise 'Connected as' and the escaped account, or 'Configured' when none is stored; never 'Status unknown' |
| RemoteStorageProvider.StatusMessageNamesAccount | plib/hooks/RemoteStorageProvider.php:145-151 | an account address without markup characters appears in the message exactly as stored |
| RemoteStorageProvider.GetStorageStats | plib/hooks/RemoteStorageProvider.php:179-211 | unreadable settings give all zeros; the cached figures are used exactly when the cached text is present, decodes, has a timestamp and is under 3600 seconds old; otherwise 0 used of 107374182400, all free |
| RemoteStorageProvider.StaleCacheStaysStale | plib/hooks/RemoteStorageProvider.php:184-192 | a cache that is stale now is stale at every later time |
| RemoteStorageProvider.CacheFreshForAnHour | plib/hooks/RemoteStorageProvider.php:184-186 | a cache stamped at time t is used exactly before t + 3600 |
| RemoteStorageProvider.GetInfo | plib/hooks/RemoteStorageProvider.php:36-46 | the provider is listed with id 'gdrive', type 'cloud' and its name |
| BackupTransport.ConfiguredLikeProvider | plib/hooks/Backup/Transport.php:62-75 | the transport is configured exactly when the storage provider is |
| BackupTransport.GetStatus | plib/hooks/Backup/Transport.php:84-106 | the status is NOT_CONFIGURED exactly when not configured, and is never ERROR |
| BackupTransport.MessageFor | plib/hooks/Backup/Transport.php:115-128 | each status has its own message, and each message is given for exactly one status |
| BackupTransport.GetStatusMessage | plib/hooks/Backup/Transport.php:115-128 | 'Connected to Google Drive' exactly when configured, otherwise the not-configured message |
| BackupTransport.GetQuota | plib/hooks/Backup/Transport.php:137-163 | nothing is used and free is total minus used; the total is 1099511627776 when configured and 0 otherwise |
| BackupTransport.ValidateExactly | plib/hooks/Backup/Transport.php:205-221 | validate returns true exactly when configured, the not-configured message otherwise, and never the unable-to-connect message |

## Left out

- Shell archiving: the `exec` of tar, the temporary directory, and `unlink`/`rmdir`. These are host I/O. Tar's exit code and the archive's size are oracles.
- The Windows branch of runBackup (plib/library/BackupController.php:140-152 and its nested copy). It archives with PowerShell to `{dirName}.zip` and uploads from an unquoted path. The model is the non-Windows branch: archives are always named `.tar.gz`, and the `escapeshellarg` finding concerns that branch only.
- The top-level run uploads each archive from the plain path `basename($dir).tar.gz`, with the archive's real size. This is the corrected behaviour of the `escapeshellarg` reassignment in plib/library/BackupController.php:157; the code as written is under "## Findings".
- The host log `pm_Log`. This is output only. In the top-level copy this includes all of `logBackupEvent`, so that copy's model never writes `backup_logs`.
- `date()` and `time()`. They are parameters, and one timestamp stands for the whole run of the nested copy.
- The Google client library: the OAuth token exchange, the Drive query strings and the wire protocol. Tokens are opaque strings. Expiry and refresh replies are oracles.
- `getConfigurationUrl`, `getDescription` and the Transport's `getName`/`getId`. These are constant strings and URLs built by the host.
- The Transport's `download` and `delete`. They are placeholders that only log.
- plib/hooks/CustomInfo.php. It uses floating-point `log`, division and `round`.
- UI, HTTP and routing files, and the CLI wrappers. They only pass results on.
- plib/hooks/ConfigDefaults.php is not modelled as a hook. Its values are only the store the extension is installed with.
- The read-modify-write race on `backup_logs` between concurrent runs. Concurrency is out of scope.
- PhpRuntime.CastInt: the `(int)` cast reads blanks, a sign and digits. It does not model exponent or fraction forms, or saturation at PHP_INT_MAX.
- BackupSettings.ValidateSettings: the directories are taken as a list of strings and the frequency as text. Non-list directories, and a boolean `true` frequency that PHP's loose `in_array` would accept, are not modelled.
- GoogleDrive.RetentionEffect: lists the whole folder, following every page, which is the corrected behaviour. Both ApplyRetentionPolicy methods (TopBackupController and NestedBackupController) use it. As written, the source reads only the first page of at most 100 files; see "## Findings".
- Text is Unicode strings, while PHP strings are bytes. `json_encode` returns false on invalid UTF-8, so JsonCodec.DecodeStringRoundTrip, JsonCodec.LogRoundTrip and BackupSettings.SettingsRoundTrip hold for valid UTF-8 input only. That covers input arriving through the JSON API.
- JsonCodec.DecodeLog: the decoder accepts only the compact text that `json_encode` writes. `json_decode` also accepts whitespace and other escapes.
- NestedBackupController.BackupController.LogBackupEvent: requires that the stored log is in the compact form `json_encode` writes, the only form the model's decoder reads. PHP's `json_decode` also reads any other JSON list, and a `backup_logs` value written in another form by other means is not modelled. A value that is not a JSON list would make `array_unshift` raise a TypeError; that case is not modelled either.
- TopBackupController.BackupController.RunBackup: requires the settings keys to be well formed, as saveSettings and the defaults leave them. A `retention_count` outside [1, 100] or a `backup_dirs` value that does not decode, written by other means, is not modelled. The same holds for NestedBackupController.BackupController.RunBackup.
- RemoteStorageProvider.GetStorageStats: `json_decode` of the cached text is a parameter, and a non-numeric `cached_at` is not modelled.
- TopBackupController.BackupController.RunBackup: uses the corrected createGoogleClient. RunBackupAsWritten is the run with the call as written, and AsWrittenRunAgrees and FailedRefreshRun relate the two.
- GoogleDrive.Drive.GetOrCreateFolder: listing and creating the "Plesk Backups" folder cannot fail in the model. In the source a refused `listFiles` or `create` throws, and runBackup's catch turns it into a failed run. The listing in applyRetentionPolicy cannot fail either.
- GoogleDrive.Drive.NextChunk: a chunk cannot throw in the model; it returns false or completes. In the source a refused chunk throws out of the upload loop and fails the run.
- TopBackupController.BackupController.constructor: it takes the host's settings store as a parameter. In the source, line 11 of plib/library/BackupController.php writes `pm_Settings::getInstance()` unqualified inside the `PleskExt\GDriveAutoBackups` namespace with no `use`. That may resolve to a class the extension does not define and fail with 'Class not found'. The model assumes it reaches the host's store.
- The upload and completion oracles are keyed by archive name. Two directories with the same basename therefore get the same upload answer in a run, and their archives share one temporary path.
- Floating-point settings values are not modelled: the model has no float value. saveSettings casts `retention_count` with `(int)` first, so a float such as 5.5 behaves as the integer 5, which the model covers.
- BackupTransport and RemoteStorageProvider read the settings store more than once per call in the source. The model assumes every read in one call returns the same store.
- The 'Status unknown' branch of getStatusMessage and the 'Validation error' branch of the Transport's validate are modelled, not left out. They cannot be reached with a single settings read, and StatusMessageCases and ValidateExactly prove it.

## Findings

| source | as written | input that shows it | evidently intended | confidence | as-written member | corrected member |
|---|---|---|---|---|---|---|
| plib/library/BackupController.php:301-325 | the folder is listed with `orderBy createdTime` and no `pageSize`, and `nextPageToken` is never followed, so `$files` is the first page of at most 100 files (the same in Plesk-GDrive-AutoBackups/plib/library/BackupController.php:236-259) | retention count 100 (which saveSettings accepts) and a folder of 101 archives: `$filesToDelete` is 0 and nothing is deleted, in this and every later run | every page is read, so the folder is trimmed to the K newest archives | not executed | GoogleDrive.PageCapStopsRetention | GoogleDrive.FullListingKeepsExactly |
| plib/library/BackupController.php:155-170 | `$tarFile` is replaced by `escapeshellarg($tarFile)` before the `exec`, and the quoted text is then passed to `basename`, `filesize`, `file_get_contents` and `unlink`; the shell strips the quotes, so tar writes the plain path, and the quoted path names no file | any directory, e.g. `/var/www` with temporary directory `/tmp/plesk_backup_x` (QuotedPathMisses) | the Drive file is named `www.tar.gz`, an archive over 10 MiB is sent in chunks, the archive's bytes are sent, and the archive is removed; as written the name is `www.tar.gz'`, `filesize` is false so the chunked path is never taken, `file_get_contents` is false so an empty body is sent, and `unlink` leaves the archive behind | not executed | BackupRun.QuotedPathMisses | BackupRun.UnquotedPathUploads |
| plib/library/ApiController.php:100-107 | when a token refresh fails, the catch block calls `$this->clearToken()`, which the class does not define; the resulting \Error is not an \Exception, so neither this catch nor runBackup's `catch (\Exception)` stops it | client id and secret set, a stored token the client reports expired, and a refresh that throws (the store of RefreshFailureWitness) | the stored token is emptied and the client is returned, so the run reports 'Not connected to Google Drive' on the next attempt instead of crashing | not executed | TopApiController.RefreshFailureIsFatal | TopApiController.RefreshFailureDisconnects |
