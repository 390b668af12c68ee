/**
 * The BackupController of the Plesk-GDrive-AutoBackups/ tree. Scheduler
 * failures are not caught, so they reach the caller of saveSettings; every
 * archive goes up in one multipart request; and every step of a run is
 * recorded in the capped event log under `backup_logs`.
 */
module NestedBackupController {
  import opened PhpRuntime
  import opened JsonCodec
  import opened SettingsStore
  import opened BackupSettings
  import opened HostScheduler
  import opened GoogleDrive
  import opened GoogleAuth
  import opened BackupRun
  import opened EventLog
  import NestedApiController

  const FolderName: string := "Plesk Backups"
  const MsgStarting: string := "Starting backup process"
  const MsgCompleted: string := "Backup completed successfully"

  function DirectoryMessage(dir: string): string
  {
    "Backing up directory: " + dir
  }

  function FolderMessage(folderId: string): string
  {
    "Created folder: " + FolderName + " with ID: " + folderId
  }

  function UploadMessage(name: string, id: nat): string
  {
    "Uploaded file: " + name + " with ID: " + DecimalString(id)
  }

  function RetentionMessage(keep: int, count: nat): string
  {
    "Applying retention policy: keeping " + DecimalString(keep) + " backups, removing " + DecimalString(count) + " old backups"
  }

  function DeletedMessage(name: string): string
  {
    "Deleted old backup: " + name
  }

  function FailureMessage(error: string): string
  {
    "Backup failed: " + error
  }

  /** How a run whose try block ended with this failure ends. */
  function Outcome(failure: Option<string>): (r: RunResult)
    ensures r.Failed? <==> failure.Some?
    ensures failure.Some? ==> r.error == failure.value
  {
    if failure.Some? then Failed(failure.value) else Completed
  }

  /** An entry at the default level. */
  function Info(now: string, message: string): LogEntry
  {
    LogEntry(now, LevelInfo, message)
  }

  predicate AllInfo(events: seq<LogEntry>)
  {
    forall k :: 0 <= k < |events| ==> events[k].level == LevelInfo
  }

  /**
   * A run's events logged on top of `log0`, then more events logged on top
   * of that: all of them are logged on top of `log0`, and the store still
   * differs from `data0` only in the log.
   */
  lemma {:induction false} LoggedThen(log0: seq<LogEntry>, data0: map<string, string>, events: seq<LogEntry>,
                                      log1: seq<LogEntry>, data1: map<string, string>, more: seq<LogEntry>,
                                      log2: seq<LogEntry>, data2: map<string, string>)
    requires log1 == PushAll(log0, events) && SameExceptLogs(data1, data0) && AllInfo(events)
    requires log2 == PushAll(log1, more) && SameExceptLogs(data2, data1) && AllInfo(more)
    ensures log2 == PushAll(log0, events + more) && SameExceptLogs(data2, data0) && AllInfo(events + more)
  {
    PushAllAppend(log0, events, more);
    SameExceptLogsTrans(data2, data1, data0);
    AllInfoAppend(events, more);
  }

  lemma {:induction false} AllInfoAppend(a: seq<LogEntry>, b: seq<LogEntry>)
    requires AllInfo(a) && AllInfo(b)
    ensures AllInfo(a + b)
  {
  }

  // ---------------------------------------------------------------------
  // configureCronJob
  // ---------------------------------------------------------------------

  /**
   * configureCronJob in this copy: the first removal the host refuses
   * throws, leaving that task and every later one in place; otherwise the
   * add is attempted and its refusal throws.
   */
  function CronEffect(ts: seq<Task>, nextId: nat, schedule: string, scriptPath: string,
                      removalError: nat -> Option<string>, addError: Option<string>): (Option<string>, seq<Task>)
  {
    var j := FirstRefusal(ts, scriptPath, removalError);
    if j < |ts| then (removalError(ts[j].id), Surviving(ts[..j], scriptPath, removalError) + ts[j..])
    else (addError, AfterCronAdd(Surviving(ts, scriptPath, removalError), nextId, schedule, scriptPath, addError))
  }

  /**
   * The call succeeds exactly when the host refuses nothing, and then the
   * task list is the one the top-level copy produces. A refused removal
   * ends the call with the host's error, adds nothing, keeps the refused
   * task and every later one in order, and has already removed every
   * earlier task that runs the script.
   */
  lemma {:induction false} CronRefusalStops(ts: seq<Task>, nextId: nat, schedule: string, scriptPath: string,
                                            removalError: nat -> Option<string>, addError: Option<string>)
    ensures var (err, after) := CronEffect(ts, nextId, schedule, scriptPath, removalError, addError);
            && (err.None? <==> FirstRefusal(ts, scriptPath, removalError) == |ts| && addError.None?)
            && (err.None? ==> after == AfterCronAdd(Surviving(ts, scriptPath, removalError), nextId, schedule, scriptPath, None))
    ensures var j := FirstRefusal(ts, scriptPath, removalError);
            var (err, after) := CronEffect(ts, nextId, schedule, scriptPath, removalError, addError);
            j < |ts| ==>
              && err == removalError(ts[j].id) && err.Some?
              && |after| >= |ts| - j && after[|after| - (|ts| - j)..] == ts[j..]
              && forall k :: 0 <= k < |after| - (|ts| - j) ==> !Contains(after[k].command, scriptPath)
  {
    var j := FirstRefusal(ts, scriptPath, removalError);
    if j < |ts| {
      var kept := Surviving(ts[..j], scriptPath, removalError);
      SurvivingMembers(ts[..j], scriptPath, removalError);
      var after := kept + ts[j..];
      assert after[|after| - (|ts| - j)..] == ts[j..];
      forall k | 0 <= k < |kept|
        ensures !Contains(kept[k].command, scriptPath)
      {
        assert kept[k] in kept;
        var i :| 0 <= i < j && ts[..j][i] == kept[k];
        assert ts[i] == kept[k];
      }
    }
  }

  // ---------------------------------------------------------------------
  // The connection check of runBackup
  // ---------------------------------------------------------------------

  /** Whether runBackup gets past `!$client->getAccessToken()`: createGoogleClient returned and the client holds a token. */
  predicate Connected(m: map<string, string>, expired: bool, refresh: RefreshReply)
  {
    var r := NestedApiController.CreateClient(m, expired, refresh).0;
    r.Ok? && r.value.accessToken.Some? && !EmptyString(r.value.accessToken.value)
  }

  /** The error of a run that stops before archiving. */
  function AbortError(m: map<string, string>, expired: bool, refresh: RefreshReply): string
  {
    var r := NestedApiController.CreateClient(m, expired, refresh).0;
    if r.Thrown? then r.message else ErrNotConnected
  }

  /**
   * A run stops before archiving when the credentials are missing, when no
   * token is stored, or when an expired token cannot be refreshed; the
   * refresh error itself is what the run reports.
   */
  lemma {:induction false} UnconnectedRunAborts(m: map<string, string>, expired: bool, refresh: RefreshReply)
    ensures CredentialsMissing(m) ==> !Connected(m, expired, refresh) && AbortError(m, expired, refresh) == ErrCredentialsNotConfigured
    ensures !CredentialsMissing(m) && !TokenPresent(m) ==> !Connected(m, expired, refresh) && AbortError(m, expired, refresh) == ErrNotConnected
    ensures !CredentialsMissing(m) && TokenPresent(m) && expired && refresh.RefreshFailed? ==>
              !Connected(m, expired, refresh) && AbortError(m, expired, refresh) == refresh.message
    ensures !CredentialsMissing(m) && TokenPresent(m) && !expired ==> Connected(m, expired, refresh)
  {
  }

  /** createGoogleClient changes at most the token, so the settings and the event log are as before. */
  lemma {:induction false} ClientKeepsStore(m: map<string, string>, expired: bool, refresh: RefreshReply)
    requires SettingsWellFormed(m)
    ensures var m' := NestedApiController.CreateClient(m, expired, refresh).1;
            && SettingsWellFormed(m') && GetSettings(m') == GetSettings(m)
            && LogText(m') == LogText(m)
  {
  }

  /** The settings keys are not `backup_logs`, so writing the log keeps them well formed. */
  lemma {:induction false} SettingsIgnoreLogs(a: map<string, string>, b: map<string, string>)
    requires SameExceptLogs(a, b) && SettingsWellFormed(b)
    ensures SettingsWellFormed(a)
  {
    assert KeyBackupDirs != KeyBackupLogs && KeyBackupFreq != KeyBackupLogs && KeyRetentionCount != KeyBackupLogs;
    SameExceptLogsAt(a, b, KeyBackupDirs);
    SameExceptLogsAt(a, b, KeyBackupFreq);
    SameExceptLogsAt(a, b, KeyRetentionCount);
  }

  // ---------------------------------------------------------------------
  // What each step logs
  // ---------------------------------------------------------------------

  /** The entries uploadFileToDrive logs: the folder when it had to be created, then the upload when it succeeded. */
  function UploadEvents(now: string, folder: Option<seq<DriveFile>>, answers: DriveAnswers, name: string, id: nat): seq<LogEntry>
  {
    (if folder.None? then [Info(now, FolderMessage(answers.folderId))] else [])
    + (if answers.uploadError(name).None? then [Info(now, UploadMessage(name, id))] else [])
  }

  function DeletedEvents(now: string, fs: seq<DriveFile>): (es: seq<LogEntry>)
    ensures |es| == |fs| && forall k :: 0 <= k < |fs| ==> es[k] == Info(now, DeletedMessage(fs[k].name))
  {
    seq(|fs|, k requires 0 <= k < |fs| => Info(now, DeletedMessage(fs[k].name)))
  }

  /** One more deleted file, one more entry. */
  lemma {:induction false} DeletedEventsSnoc(now: string, fs: seq<DriveFile>, i: nat)
    requires i < |fs|
    ensures DeletedEvents(now, fs[..i + 1]) == DeletedEvents(now, fs[..i]) + [Info(now, DeletedMessage(fs[i].name))]
  {
    assert DeletedEvents(now, fs[..i + 1]) == DeletedEvents(now, fs[..i]) + [Info(now, DeletedMessage(fs[i].name))];
  }

  /** The entries applyRetentionPolicy logs: nothing when nothing is due, else the plan and one entry per deleted file. */
  function RetentionEvents(now: string, files: seq<DriveFile>, keep: int, deleteError: nat -> Option<string>): seq<LogEntry>
    requires keep >= 0
  {
    var d := DeleteCount(|files|, keep);
    if d == 0 then [] else [Info(now, RetentionMessage(keep, d))] + DeletedEvents(now, files[..FirstDeleteFailure(files, d, deleteError)])
  }

  /**
   * When more files are stored than kept, the pass the delete loop makes is
   * the retention rule: its error and the files it leaves are the rule's,
   * and the plan is logged, then one entry per file deleted before the
   * first refusal.
   */
  lemma {:induction false} RetentionPass(now: string, files: seq<DriveFile>, keep: int, deleteError: nat -> Option<string>,
                                         err: Option<string>, left: seq<DriveFile>, deleted: seq<LogEntry>)
    requires keep >= 0 && |files| > keep
    requires var m := FirstDeleteFailure(files, |files| - keep, deleteError);
             && err == (if m < |files| - keep then deleteError(files[m].id) else None)
             && left == files[m..] && deleted == DeletedEvents(now, files[..m])
    ensures (err, left) == RetentionEffect(files, keep, deleteError)
    ensures [Info(now, RetentionMessage(keep, |files| - keep))] + deleted == RetentionEvents(now, files, keep, deleteError)
  {
    assert DeleteCount(|files|, keep) == |files| - keep;
  }

  /** The refused removal found by the loop is the first one. */
  lemma {:induction false} FirstRefusalAt(ts: seq<Task>, scriptPath: string, removalError: nat -> Option<string>, i: nat)
    requires i <= |ts|
    requires forall k :: 0 <= k < i ==> !Contains(ts[k].command, scriptPath) || removalError(ts[k].id).None?
    requires i < |ts| ==> Contains(ts[i].command, scriptPath) && removalError(ts[i].id).Some?
    ensures FirstRefusal(ts, scriptPath, removalError) == i
  {
  }

  class BackupController {
    const pm: Store
    const api: NestedApiController.ApiController
    /** `pm_Context::getPlibDir()`. */
    const plibDir: string
    /** The event log the store holds under `backup_logs`, newest first. */
    ghost var log: seq<LogEntry>
    /** The JSON text of each entry of `log`, as it stands in the stored list. */
    ghost var texts: seq<string>

    /** The controller and its ApiController share one store, which holds `log`. */
    ghost predicate Logging()
      reads this, pm
    {
      api.pm == pm && Holds(pm.data, texts, log)
    }

    /** Besides, the settings keys of the store are well formed. */
    ghost predicate Valid()
      reads this, pm
    {
      Logging() && SettingsWellFormed(pm.data)
    }

    constructor (store: Store, plib: string, ghost stored: seq<LogEntry>)
      requires SettingsWellFormed(store.data) && Stores(store.data, stored)
      ensures Valid() && pm == store && plibDir == plib && log == stored
    {
      pm := store;
      plibDir := plib;
      api := new NestedApiController.ApiController(store);
      log := stored;
      texts := EntryTexts(stored);
      StoresHolds(store.data, stored);
    }

    /** The stored log as logBackupEvent and getLogs read it: the text under `backup_logs`, decoded. */
    method ReadLogs() returns (r: Option<seq<LogEntry>>)
      requires Logging()
      ensures r == Some(log)
    {
      HoldsStores(pm.data, texts, log);
      StoresRead(pm.data, log);
      r := GetLogs(pm.data);
    }

    /**
     * logBackupEvent: the entry goes in front of the stored log, which is
     * cut back to 100 entries and written back as a JSON list; no other key
     * changes.
     */
    method LogBackupEvent(now: string, message: string, level: string := LevelInfo)
      requires Logging()
      modifies this, pm
      ensures Logging()
      ensures log == PushCapped(old(log), LogEntry(now, level, message))
      ensures pm.data == old(pm.data)[KeyBackupLogs := ListText(texts)]
      ensures SameExceptLogs(pm.data, old(pm.data))
    {
      var logs := ReadLogs();
      var logsArray := [LogEntry(now, level, message)] + logs.value;
      if |logsArray| > LogCapacity {
        logsArray := logsArray[..LogCapacity];
      }
      HoldsStores(pm.data, texts, log);
      StoresWrite(pm.data, log, LogEntry(now, level, message));
      pm.Set(KeyBackupLogs, EncodeLog(logsArray));
      log := logsArray;
      texts := EntryTexts(logsArray);
      StoresHolds(pm.data, log);
    }

    /**
     * logBackupEvent at INFO level as a step of a run uses it: with the
     * run's earlier events logged on top of `log0`, the new entry is logged
     * after them, and the store still differs from `data0` only in the log.
     */
    method LogStep(now: string, message: string, ghost log0: seq<LogEntry>, ghost data0: map<string, string>, ghost events: seq<LogEntry>)
      requires Logging() && log == PushAll(log0, events) && SameExceptLogs(pm.data, data0) && AllInfo(events)
      modifies this, pm
      ensures Logging()
      ensures log == PushAll(log0, events + [Info(now, message)]) && SameExceptLogs(pm.data, data0) && AllInfo(events + [Info(now, message)])
    {
      ghost var m1 := pm.data;
      LogBackupEvent(now, message);
      PushAllSnoc(log0, events, Info(now, message));
      SameExceptLogsTrans(pm.data, m1, data0);
      AllInfoAppend(events, [Info(now, message)]);
    }

    /**
     * saveSettings: nothing is written when validation fails; otherwise the
     * three settings keys are written, and then a scheduler refusal is
     * thrown to the caller with the settings already saved.
     */
    method SaveSettings(scheduler: Scheduler, dirs: seq<string>, freq: string, retention: Scalar) returns (r: Result<bool>)
      requires Valid() && scheduler.Valid()
      modifies pm, scheduler
      ensures Valid() && scheduler.Valid()
      ensures ValidateSettings(dirs, freq, retention).Thrown? ==>
                && r == Thrown(ValidateSettings(dirs, freq, retention).message)
                && pm.data == old(pm.data)
                && scheduler.tasks == old(scheduler.tasks) && scheduler.nextId == old(scheduler.nextId)
      ensures ValidateSettings(dirs, freq, retention).Ok? ==>
                var (err, after) := CronEffect(old(scheduler.tasks), old(scheduler.nextId), ScheduleFor(freq), ScriptPath(plibDir),
                                               scheduler.removalError, scheduler.addError);
                && pm.data == WriteSettings(old(pm.data), ValidateSettings(dirs, freq, retention).value)
                && r == (if err.Some? then Thrown(err.value) else Ok(true))
                && scheduler.tasks == after
    {
      var v := ValidateSettings(dirs, freq, retention);
      if v.Thrown? {
        return Thrown(v.message);
      }
      pm.Set(KeyBackupDirs, EncodeStrings(dirs));
      pm.Set(KeyBackupFreq, freq);
      pm.Set(KeyRetentionCount, DecimalString(v.value.retention));
      WriteSettingsWellFormed(old(pm.data), dirs, freq, retention);
      assert LogText(pm.data) == LogText(old(pm.data));
      var err := ConfigureCronJob(scheduler, freq);
      r := if err.Some? then Thrown(err.value) else Ok(true);
    }

    /**
     * configureCronJob: listed tasks that run the script are removed in
     * order until the host refuses one, whose error is thrown; then the job
     * for the new schedule is added, and a refusal of that is thrown too.
     */
    method ConfigureCronJob(scheduler: Scheduler, frequency: string) returns (err: Option<string>)
      requires scheduler.Valid()
      modifies scheduler
      ensures scheduler.Valid()
      ensures (err, scheduler.tasks) == CronEffect(old(scheduler.tasks), old(scheduler.nextId), ScheduleFor(frequency), ScriptPath(plibDir),
                                                   scheduler.removalError, scheduler.addError)
    {
      var scriptPath := ScriptPath(plibDir);
      var scheduled := scheduler.tasks;
      for i := 0 to |scheduled|
        invariant scheduler.Valid() && scheduler.nextId == old(scheduler.nextId)
        invariant scheduler.tasks == Surviving(scheduled[..i], scriptPath, scheduler.removalError) + scheduled[i..]
        invariant forall k :: 0 <= k < i ==> !Contains(scheduled[k].command, scriptPath) || scheduler.removalError(scheduled[k].id).None?
      {
        var task := scheduled[i];
        if Contains(task.command, scriptPath) {
          var e := scheduler.RemoveTask(task.id);
          if e.Some? {
            FirstRefusalAt(scheduled, scriptPath, scheduler.removalError, i);
            assert scheduler.tasks == Surviving(scheduled[..i], scriptPath, scheduler.removalError) + scheduled[i..];
            return e;
          }
        }
        RemovalLoopStep(scheduled, i, scriptPath, scheduler.removalError, scheduler.tasks);
      }
      assert scheduled[..|scheduled|] == scheduled;
      FirstRefusalAt(scheduled, scriptPath, scheduler.removalError, |scheduled|);
      assert scheduler.tasks == Surviving(scheduled, scriptPath, scheduler.removalError);
      err := scheduler.AddCronJob(ScheduleFor(frequency), scriptPath);
      assert scheduler.tasks == AfterCronAdd(Surviving(scheduled, scriptPath, scheduler.removalError), old(scheduler.nextId),
                                             ScheduleFor(frequency), scriptPath, scheduler.addError);
    }

    /**
     * uploadFileToDrive: the folder exists afterwards (logged when it had
     * to be created); the archive goes up in one multipart request, and a
     * successful upload is logged with the new file's id.
     */
    method UploadFileToDrive(drive: Drive, name: string, now: string) returns (r: Result<nat>, ghost events: seq<LogEntry>)
      requires Logging() && drive.Valid()
      modifies this, pm, drive
      ensures Logging() && drive.Valid()
      ensures drive.answers.uploadError(name).Some? ==>
                && r == Thrown(drive.answers.uploadError(name).value)
                && drive.folder == Some(Listing(old(drive.folder))) && drive.nextId == old(drive.nextId)
      ensures drive.answers.uploadError(name).None? ==>
                && r == Ok(old(drive.nextId)) && drive.nextId == old(drive.nextId) + 1
                && drive.folder == Some(Listing(old(drive.folder)) + [DriveFile(old(drive.nextId), name)])
      ensures events == UploadEvents(now, old(drive.folder), drive.answers, name, old(drive.nextId))
      ensures log == PushAll(old(log), events) && SameExceptLogs(pm.data, old(pm.data)) && AllInfo(events)
    {
      events := GetOrCreateFolder(drive, now);
      r := drive.CreateMultipart(name);
      if r.Ok? {
        LogStep(now, UploadMessage(name, r.value), old(log), old(pm.data), events);
        events := events + [Info(now, UploadMessage(name, r.value))];
      }
    }

    /** getOrCreateFolder: the backup folder exists afterwards, and its creation is logged when it had to be made. */
    method GetOrCreateFolder(drive: Drive, now: string) returns (ghost events: seq<LogEntry>)
      requires Logging() && drive.Valid()
      modifies this, pm, drive
      ensures Logging() && drive.Valid()
      ensures drive.folder == Some(Listing(old(drive.folder))) && drive.nextId == old(drive.nextId)
      ensures events == if old(drive.folder).None? then [Info(now, FolderMessage(drive.answers.folderId))] else []
      ensures log == PushAll(old(log), events) && SameExceptLogs(pm.data, old(pm.data)) && AllInfo(events)
    {
      events := [];
      var created := drive.GetOrCreateFolder();
      if created {
        LogStep(now, FolderMessage(drive.answers.folderId), old(log), old(pm.data), events);
        events := events + [Info(now, FolderMessage(drive.answers.folderId))];
      }
    }

    /**
     * applyRetentionPolicy: with no backup folder, or no more files than
     * are kept, nothing happens and nothing is logged; otherwise the plan is
     * logged and the oldest files are deleted oldest first, each deletion
     * logged, until one is refused, which throws.
     */
    method ApplyRetentionPolicy(drive: Drive, keep: int, now: string) returns (err: Option<string>, ghost events: seq<LogEntry>)
      requires Logging() && drive.Valid() && keep >= 0
      modifies this, pm, drive
      ensures Logging() && drive.Valid() && drive.nextId == old(drive.nextId)
      ensures old(drive.folder).None? ==> err.None? && drive.folder.None? && events == []
      ensures old(drive.folder).Some? ==>
                && drive.folder.Some?
                && (err, drive.folder.value) == RetentionEffect(old(drive.folder).value, keep, drive.answers.deleteError)
                && events == RetentionEvents(now, old(drive.folder).value, keep, drive.answers.deleteError)
      ensures log == PushAll(old(log), events) && SameExceptLogs(pm.data, old(pm.data)) && AllInfo(events)
    {
      events := [];
      if drive.folder.None? {
        return None, events;
      }
      var files := drive.folder.value;
      var toDelete := |files| - keep;
      if toDelete <= 0 {
        assert files[0..] == files;
        return None, events;
      }
      LogStep(now, RetentionMessage(keep, toDelete), old(log), old(pm.data), events);
      events := [Info(now, RetentionMessage(keep, toDelete))];
      ghost var log1, data1 := log, pm.data;
      ghost var deleted;
      err, deleted := DeleteOldest(drive, files, toDelete, now);
      LoggedThen(old(log), old(pm.data), events, log1, data1, deleted, log, pm.data);
      RetentionPass(now, files, keep, drive.answers.deleteError, err, drive.folder.value, deleted);
      events := events + deleted;
    }

    /**
     * The delete loop of applyRetentionPolicy: the first `count` files are
     * deleted in order, each deletion logged, until Drive refuses one.
     */
    method DeleteOldest(drive: Drive, files: seq<DriveFile>, count: nat, now: string) returns (err: Option<string>, ghost deleted: seq<LogEntry>)
      requires Logging() && drive.Valid() && drive.folder == Some(files) && count <= |files|
      modifies this, pm, drive
      ensures Logging() && drive.Valid() && drive.nextId == old(drive.nextId)
      ensures var m := FirstDeleteFailure(files, count, drive.answers.deleteError);
              && err == (if m < count then drive.answers.deleteError(files[m].id) else None)
              && drive.folder == Some(files[m..])
              && deleted == DeletedEvents(now, files[..m])
      ensures log == PushAll(old(log), deleted) && SameExceptLogs(pm.data, old(pm.data)) && AllInfo(deleted)
    {
      deleted := [];
      for i := 0 to count
        invariant Logging() && drive.Valid() && drive.nextId == old(drive.nextId)
        invariant drive.folder == Some(files[i..])
        invariant forall k :: 0 <= k < i ==> drive.answers.deleteError(files[k].id).None?
        invariant deleted == DeletedEvents(now, files[..i])
        invariant log == PushAll(old(log), deleted) && SameExceptLogs(pm.data, old(pm.data))
      {
        WithoutFileFirst(files[i..]);
        assert files[i..][1..] == files[i + 1..];
        err := drive.Delete(files[i].id);
        if err.Some? {
          FirstDeleteFailureAt(files, count, drive.answers.deleteError, i);
          return;
        }
        assert drive.answers.deleteError(files[i].id).None?;
        LogStep(now, DeletedMessage(files[i].name), old(log), old(pm.data), deleted);
        DeletedEventsSnoc(now, files, i);
        deleted := deleted + [Info(now, DeletedMessage(files[i].name))];
      }
      FirstDeleteFailureAt(files, count, drive.answers.deleteError, count);
      err := None;
    }

    /**
     * The try block of runBackup after getSettings, on the stored
     * directories and retention count: a run that is not connected throws
     * before logging anything; otherwise the start is logged, the
     * directories are archived and uploaded, the retention policy applied
     * and the completion logged, and the first failure is thrown.
     */
    method TryRun(drive: Drive, dirs: seq<string>, keep: int, ar: Archiver, now: string, expired: bool, refresh: RefreshReply)
      returns (failure: Option<string>, ghost events: seq<LogEntry>)
      requires Valid() && drive.Valid() && keep >= 0
      modifies this, pm, drive
      ensures Logging() && drive.Valid()
      ensures SameExceptLogs(pm.data, NestedApiController.CreateClient(old(pm.data), expired, refresh).1)
      ensures !Connected(old(pm.data), expired, refresh) ==>
                && failure == Some(AbortError(old(pm.data), expired, refresh)) && events == []
                && drive.folder == old(drive.folder) && drive.nextId == old(drive.nextId)
      ensures Connected(old(pm.data), expired, refresh) ==>
                && (Outcome(failure), drive.folder) == RunEffect(old(drive.folder), old(drive.nextId), dirs, keep, ar, false, drive.answers)
                && |events| > 0 && events[0] == Info(now, MsgStarting)
                && (failure.None? ==> events[|events| - 1] == Info(now, MsgCompleted))
      ensures log == PushAll(old(log), events) && AllInfo(events)
    {
      events := [];
      var client := api.CreateGoogleClient(expired, refresh);
      ClientKeepsStore(old(pm.data), expired, refresh);
      if client.Thrown? {
        return Some(client.message), events;
      }
      if client.value.accessToken.None? || EmptyString(client.value.accessToken.value) {
        return Some(ErrNotConnected), events;
      }
      failure, events := RunSteps(drive, dirs, keep, ar, now);
    }

    /**
     * The steps of a connected run: the start is logged, the directories
     * archived and uploaded, the retention policy applied and the completion
     * logged; the first failure is thrown and ends the steps.
     */
    method RunSteps(drive: Drive, dirs: seq<string>, keep: int, ar: Archiver, now: string)
      returns (failure: Option<string>, ghost events: seq<LogEntry>)
      requires Logging() && drive.Valid() && keep >= 0
      modifies this, pm, drive
      ensures Logging() && drive.Valid()
      ensures (Outcome(failure), drive.folder) == RunEffect(old(drive.folder), old(drive.nextId), dirs, keep, ar, false, drive.answers)
      ensures |events| > 0 && events[0] == Info(now, MsgStarting)
      ensures failure.None? ==> events[|events| - 1] == Info(now, MsgCompleted)
      ensures log == PushAll(old(log), events) && SameExceptLogs(pm.data, old(pm.data)) && AllInfo(events)
    {
      events := [];
      LogStep(now, MsgStarting, old(log), old(pm.data), events);
      events := events + [Info(now, MsgStarting)];
      ghost var log1, data1 := log, pm.data;
      ghost var archived;
      failure, archived := ArchiveDirectories(drive, dirs, ar, now);
      LoggedThen(old(log), old(pm.data), events, log1, data1, archived, log, pm.data);
      events := events + archived;
      if failure.Some? {
        return;
      }
      ghost var log2, data2 := log, pm.data;
      ghost var retained;
      failure, retained := ApplyRetentionPolicy(drive, keep, now);
      LoggedThen(old(log), old(pm.data), events, log2, data2, retained, log, pm.data);
      events := events + retained;
      if failure.Some? {
        return;
      }
      LogStep(now, MsgCompleted, old(log), old(pm.data), events);
      events := events + [Info(now, MsgCompleted)];
    }

    /**
     * runBackup: the stored settings are read, the run is tried, and a
     * failure is logged at ERROR level and returned. Drive ends as the run
     * leaves it, the store as createGoogleClient leaves it apart from the
     * log, and the newest log entry tells how the run ended.
     */
    method RunBackup(drive: Drive, ar: Archiver, now: string, expired: bool, refresh: RefreshReply)
      returns (r: RunResult, ghost events: seq<LogEntry>)
      requires Valid() && drive.Valid()
      modifies this, pm, drive
      ensures Valid() && drive.Valid()
      ensures log == PushAll(old(log), events) && |events| > 0
      ensures SameExceptLogs(pm.data, NestedApiController.CreateClient(old(pm.data), expired, refresh).1)
      ensures !Connected(old(pm.data), expired, refresh) ==>
                && r == Failed(AbortError(old(pm.data), expired, refresh))
                && drive.folder == old(drive.folder) && drive.nextId == old(drive.nextId)
      ensures Connected(old(pm.data), expired, refresh) ==>
                && 1 <= GetSettings(old(pm.data)).retentionCount
                && (r, drive.folder) == RunEffect(old(drive.folder), old(drive.nextId), BackupDirs(old(pm.data)),
                                                  GetSettings(old(pm.data)).retentionCount, ar, false, drive.answers)
                && events[0] == Info(now, MsgStarting)
      ensures forall k :: 0 <= k < |events| - 1 ==> events[k].level == LevelInfo
      ensures log[0] == events[|events| - 1] == if r.Failed? then LogEntry(now, LevelError, FailureMessage(r.error)) else Info(now, MsgCompleted)
    {
      var settings := GetSettings(pm.data);
      WellFormedSettingsRead(pm.data);
      ClientKeepsStore(pm.data, expired, refresh);
      var dirs := if settings.backupDirs.Some? then settings.backupDirs.value else [];
      var failure;
      failure, events := TryRun(drive, dirs, settings.retentionCount, ar, now, expired, refresh);
      SettingsIgnoreLogs(pm.data, NestedApiController.CreateClient(old(pm.data), expired, refresh).1);
      if failure.Some? {
        var e := LogEntry(now, LevelError, FailureMessage(failure.value));
        ghost var m1 := pm.data;
        ghost var tried := events;
        LogBackupEvent(now, e.message, LevelError);
        PushAllSnoc(old(log), events, e);
        SameExceptLogsTrans(pm.data, m1, NestedApiController.CreateClient(old(pm.data), expired, refresh).1);
        SettingsIgnoreLogs(pm.data, NestedApiController.CreateClient(old(pm.data), expired, refresh).1);
        events := events + [e];
        r := Failed(failure.value);
      } else {
        r := Completed;
      }
      PushAllNewest(old(log), events);
    }

    /**
     * One turn of runBackup's directory loop: the directory is logged, then
     * archived, and its archive uploaded when tar succeeded.
     */
    method BackUpDirectory(drive: Drive, dir: string, ar: Archiver, now: string) returns (failure: Option<string>, ghost events: seq<LogEntry>)
      requires Logging() && drive.Valid()
      modifies this, pm, drive
      ensures Logging() && drive.Valid()
      ensures failure == DirFailure(dir, ar, false, drive.answers)
      ensures ar.exitCode(dir) != 0 ==> drive.folder == old(drive.folder) && drive.nextId == old(drive.nextId)
      ensures ar.exitCode(dir) == 0 && failure.Some? ==> drive.folder == Some(Listing(old(drive.folder))) && drive.nextId == old(drive.nextId)
      ensures failure.None? ==>
                && drive.folder == Some(Listing(old(drive.folder)) + [DriveFile(old(drive.nextId), ArchiveName(dir))])
                && drive.nextId == old(drive.nextId) + 1
      ensures log == PushAll(old(log), events) && SameExceptLogs(pm.data, old(pm.data)) && AllInfo(events)
      ensures |events| > 0 && events[0] == Info(now, DirectoryMessage(dir))
    {
      events := [];
      LogStep(now, DirectoryMessage(dir), old(log), old(pm.data), events);
      events := events + [Info(now, DirectoryMessage(dir))];
      if ar.exitCode(dir) != 0 {
        return Some(ErrArchivePrefix + dir), events;
      }
      ghost var log1, data1 := log, pm.data;
      var up, uploaded := UploadFileToDrive(drive, ArchiveName(dir), now);
      LoggedThen(old(log), old(pm.data), events, log1, data1, uploaded, log, pm.data);
      events := events + uploaded;
      failure := if up.Thrown? then Some(up.message) else None;
    }

    /**
     * The directory loop of runBackup: each directory is logged, archived
     * and uploaded in order, and the first failure is thrown; the
     * directories after it are not touched.
     */
    method ArchiveDirectories(drive: Drive, dirs: seq<string>, ar: Archiver, now: string)
      returns (failure: Option<string>, ghost events: seq<LogEntry>)
      requires Logging() && drive.Valid()
      modifies this, pm, drive
      ensures Logging() && drive.Valid()
      ensures var j := FirstFailing(dirs, ar, false, drive.answers);
              && (failure.Some? <==> j < |dirs|)
              && (j < |dirs| ==> failure == DirFailure(dirs[j], ar, false, drive.answers))
              && drive.folder == AfterArchiving(old(drive.folder), old(drive.nextId), dirs, ar, false, drive.answers)
              && drive.nextId == old(drive.nextId) + j
      ensures log == PushAll(old(log), events) && SameExceptLogs(pm.data, old(pm.data)) && AllInfo(events)
    {
      events := [];
      var i := 0;
      while i < |dirs|
        invariant 0 <= i <= |dirs|
        invariant Logging() && drive.Valid()
        invariant i <= FirstFailing(dirs, ar, false, drive.answers)
        invariant drive.nextId == old(drive.nextId) + i
        invariant drive.folder == FolderAfter(old(drive.folder), old(drive.nextId), dirs, i)
        invariant log == PushAll(old(log), events) && SameExceptLogs(pm.data, old(pm.data)) && AllInfo(events)
      {
        var dir := dirs[i];
        ghost var log1, data1 := log, pm.data;
        var f, logged := BackUpDirectory(drive, dir, ar, now);
        LoggedThen(old(log), old(pm.data), events, log1, data1, logged, log, pm.data);
        events := events + logged;
        if f.Some? {
          FirstFailingHere(dirs, ar, false, drive.answers, i);
          AfterArchivingAt(old(drive.folder), old(drive.nextId), dirs, ar, false, drive.answers, i);
          return f, events;
        }
        FirstFailingPast(dirs, ar, false, drive.answers, i);
        FolderAfterStep(old(drive.folder), old(drive.nextId), dirs, i);
        i := i + 1;
      }
      FirstFailingHere(dirs, ar, false, drive.answers, |dirs|);
      AfterArchivingAt(old(drive.folder), old(drive.nextId), dirs, ar, false, drive.answers, |dirs|);
      failure := None;
    }
  }
}
