/**
 * The BackupController of the top-level plib/ tree. It keeps scheduler
 * failures to the host log (not modelled) and goes on; it uploads archives
 * over 10 MiB in 1 MiB chunks; and its event log goes only to the host log,
 * so it never writes `backup_logs`.
 */
module TopBackupController {
  import opened PhpRuntime
  import opened JsonCodec
  import opened SettingsStore
  import opened BackupSettings
  import opened HostScheduler
  import opened GoogleDrive
  import opened GoogleAuth
  import opened BackupRun
  import TopApiController

  /** The client runBackup gets from createGoogleClient (with the stored token cleared on a failed refresh). */
  function RunClient(m: map<string, string>, baseUrl: string, expired: bool, refresh: RefreshReply): TopApiController.ClientOutcome
  {
    TopApiController.CreateClient(m, baseUrl, expired, refresh).outcome
  }

  /** Whether runBackup gets past its connection check: a client came back and `$client->getAccessToken()` is truthy. */
  predicate ConnectedBy(o: TopApiController.ClientOutcome)
  {
    o.Built? && o.client.accessToken.Some? && !EmptyString(o.client.accessToken.value)
  }

  /** The error of a run that stops before archiving: the exception of createGoogleClient, or 'Not connected to Google Drive'. */
  function AbortErrorBy(o: TopApiController.ClientOutcome): string
  {
    if o.Threw? then o.message else ErrNotConnected
  }

  predicate Connected(m: map<string, string>, baseUrl: string, expired: bool, refresh: RefreshReply)
  {
    ConnectedBy(RunClient(m, baseUrl, expired, refresh))
  }

  function AbortError(m: map<string, string>, baseUrl: string, expired: bool, refresh: RefreshReply): string
  {
    AbortErrorBy(RunClient(m, baseUrl, expired, refresh))
  }

  /** How runBackup as written ends: it returns a result, or an \Error escapes its `catch (\Exception)`. */
  datatype RunEnd = Returned(result: RunResult) | Crashed(error: string)

  /**
   * A site whose credentials or token are missing never reaches the archive
   * loop: the run fails with the guard's message or 'Not connected to
   * Google Drive'.
   */
  lemma {:induction false} UnconfiguredRunAborts(m: map<string, string>, baseUrl: string, expired: bool, refresh: RefreshReply)
    ensures CredentialsMissing(m) ==>
              !Connected(m, baseUrl, expired, refresh) && AbortError(m, baseUrl, expired, refresh) == ErrCredentialsNotConfigured
    ensures !CredentialsMissing(m) && !TokenPresent(m) ==>
              !Connected(m, baseUrl, expired, refresh) && AbortError(m, baseUrl, expired, refresh) == ErrNotConnected
  {
  }

  /** createGoogleClient writes only the token key, so the settings keys stay well formed. */
  lemma {:induction false} ClientKeepsSettings(m: map<string, string>, baseUrl: string, expired: bool, refresh: RefreshReply)
    requires SettingsWellFormed(m)
    ensures SettingsWellFormed(TopApiController.CreateClient(m, baseUrl, expired, refresh).store)
    ensures SettingsWellFormed(TopApiController.CreateClientAsWritten(m, baseUrl, expired, refresh).store)
  {
  }

  /**
   * Outside a failed refresh of an expired token, runBackup as written and
   * with the corrected createGoogleClient connect alike, abort with the
   * same error and leave the same store.
   */
  lemma {:induction false} AsWrittenRunAgrees(m: map<string, string>, baseUrl: string, expired: bool, refresh: RefreshReply)
    requires !(TopApiController.RefreshAttempted(m, baseUrl, expired) && refresh.RefreshFailed?)
    ensures var s := TopApiController.CreateClientAsWritten(m, baseUrl, expired, refresh);
            && !s.outcome.Fatal?
            && (ConnectedBy(s.outcome) <==> Connected(m, baseUrl, expired, refresh))
            && AbortErrorBy(s.outcome) == AbortError(m, baseUrl, expired, refresh)
            && s.store == TopApiController.CreateClient(m, baseUrl, expired, refresh).store
  {
    TopApiController.CorrectionIsLocal(m, baseUrl, expired, refresh);
  }

  /**
   * A connected site whose token has expired and cannot be refreshed: as
   * written, runBackup never returns (the \Error of the undefined
   * clearToken escapes it); corrected, the run goes on with the client and
   * the stored token is emptied.
   */
  lemma {:induction false} FailedRefreshRun(m: map<string, string>, baseUrl: string, reason: string)
    requires !CredentialsMissing(m) && TokenPresent(m)
    ensures TopApiController.CreateClientAsWritten(m, baseUrl, true, RefreshFailed(reason)).outcome.Fatal?
    ensures TopApiController.CreateClient(m, baseUrl, true, RefreshFailed(reason)).store == m[KeyAccessToken := ""]
    ensures !TopApiController.CreateClient(m, baseUrl, true, RefreshFailed(reason)).outcome.Fatal?
  {
    TopApiController.RefreshFailureIsFatal(m, baseUrl, reason);
    TopApiController.RefreshFailureDisconnects(m, baseUrl, reason);
  }

  class BackupController {
    const pm: Store
    const api: TopApiController.ApiController
    /** `pm_Context::getPlibDir()`. */
    const plibDir: string

    /** Both controllers share the one settings store, whose settings keys saveSettings keeps well formed. */
    ghost predicate Valid()
      reads this, pm
    {
      api.pm == pm && SettingsWellFormed(pm.data)
    }

    constructor (store: Store, baseUrl: string, plib: string)
      requires SettingsWellFormed(store.data)
      ensures Valid() && pm == store && plibDir == plib && api.baseUrl == baseUrl
    {
      pm := store;
      plibDir := plib;
      api := new TopApiController.ApiController(store, baseUrl);
    }

    /**
     * saveSettings: nothing is written when validation fails; otherwise the
     * three settings keys are written and the cron job replaced, whatever
     * the scheduler answers, and the call succeeds.
     */
    method SaveSettings(scheduler: Scheduler, dirs: seq<string>, freq: string, retention: Scalar) returns (r: Result<bool>)
      requires Valid() && scheduler.Valid()
      modifies pm, scheduler
      ensures Valid() && scheduler.Valid()
      ensures ValidateSettings(dirs, freq, retention).Thrown? ==>
                && r == Thrown(ValidateSettings(dirs, freq, retention).message)
                && pm.data == old(pm.data)
                && scheduler.tasks == old(scheduler.tasks) && scheduler.nextId == old(scheduler.nextId)
      ensures ValidateSettings(dirs, freq, retention).Ok? ==>
                && r == Ok(true)
                && pm.data == WriteSettings(old(pm.data), ValidateSettings(dirs, freq, retention).value)
                && scheduler.tasks == AfterCronAdd(Surviving(old(scheduler.tasks), ScriptPath(plibDir), scheduler.removalError),
                                                   old(scheduler.nextId), ScheduleFor(freq), ScriptPath(plibDir), scheduler.addError)
    {
      var v := ValidateSettings(dirs, freq, retention);
      if v.Thrown? {
        return Thrown(v.message);
      }
      pm.Set(KeyBackupDirs, EncodeStrings(dirs));
      pm.Set(KeyBackupFreq, freq);
      pm.Set(KeyRetentionCount, DecimalString(v.value.retention));
      WriteSettingsWellFormed(old(pm.data), dirs, freq, retention);
      var _ := ConfigureCronJob(scheduler, freq);
      r := Ok(true);
    }

    /**
     * configureCronJob: every listed task whose command contains the script
     * path is removed unless the host refuses, then the job for the new
     * schedule is added unless the host refuses; refusals are only logged.
     */
    method ConfigureCronJob(scheduler: Scheduler, frequency: string) returns (ok: bool)
      requires scheduler.Valid()
      modifies scheduler
      ensures scheduler.Valid() && ok
      ensures scheduler.tasks == AfterCronAdd(Surviving(old(scheduler.tasks), ScriptPath(plibDir), scheduler.removalError),
                                              old(scheduler.nextId), ScheduleFor(frequency), ScriptPath(plibDir), scheduler.addError)
    {
      var scriptPath := ScriptPath(plibDir);
      var scheduled := scheduler.tasks;
      for i := 0 to |scheduled|
        invariant scheduler.Valid() && scheduler.nextId == old(scheduler.nextId)
        invariant scheduler.tasks == Surviving(scheduled[..i], scriptPath, scheduler.removalError) + scheduled[i..]
      {
        var task := scheduled[i];
        if Contains(task.command, scriptPath) {
          var err := scheduler.RemoveTask(task.id);
        }
        RemovalLoopStep(scheduled, i, scriptPath, scheduler.removalError, scheduler.tasks);
      }
      assert scheduled[..|scheduled|] == scheduled;
      assert scheduler.tasks == Surviving(scheduled, scriptPath, scheduler.removalError);
      var _ := scheduler.AddCronJob(ScheduleFor(frequency), scriptPath);
      assert scheduler.tasks == AfterCronAdd(Surviving(scheduled, scriptPath, scheduler.removalError), old(scheduler.nextId),
                                             ScheduleFor(frequency), scriptPath, scheduler.addError);
      ok := true;
    }

    /**
     * uploadFileToDrive: the folder exists afterwards; an archive over
     * 10 MiB is sent chunk by chunk until Drive reports completion or the
     * file ends, any other in one multipart request; on success the new
     * archive is the newest file of the folder.
     */
    method UploadFileToDrive(drive: Drive, name: string, size: nat) returns (r: Result<nat>)
      requires drive.Valid()
      modifies drive
      ensures drive.Valid()
      ensures UploadFailure(name, size, true, drive.answers).Some? ==>
                && r == Thrown(UploadFailure(name, size, true, drive.answers).value)
                && drive.folder == Some(Listing(old(drive.folder))) && drive.nextId == old(drive.nextId)
      ensures UploadFailure(name, size, true, drive.answers).None? ==>
                && r == Ok(old(drive.nextId)) && drive.nextId == old(drive.nextId) + 1
                && drive.folder == Some(Listing(old(drive.folder)) + [DriveFile(old(drive.nextId), name)])
    {
      var _ := drive.GetOrCreateFolder();
      if UsesChunkedUpload(size) {
        var limit := ChunkReads(size);
        var status: Option<nat> := None;
        var i := 0;
        // `!feof($handle)` holds for exactly the first ChunkReads(size) reads.
        while status.None? && i < limit
          invariant 0 <= i <= limit
          invariant drive.Valid()
          invariant status.None? ==> && (forall k :: 0 <= k < i ==> !drive.answers.completesAt(name, k))
                                     && drive.folder == Some(Listing(old(drive.folder))) && drive.nextId == old(drive.nextId)
          invariant status.Some? ==> && FirstCompletion(name, 0, limit, drive.answers.completesAt).Some?
                                     && status == Some(old(drive.nextId)) && drive.nextId == old(drive.nextId) + 1
                                     && drive.folder == Some(Listing(old(drive.folder)) + [DriveFile(old(drive.nextId), name)])
        {
          status := drive.NextChunk(name, i);
          i := i + 1;
        }
        if status.Some? {
          return Ok(status.value);
        }
        return Thrown(ErrLargeUpload + name);
      } else {
        r := drive.CreateMultipart(name);
      }
    }

    /**
     * applyRetentionPolicy: with no backup folder nothing happens; otherwise
     * the max(0, n - keep) oldest files are deleted oldest first, and a
     * refused deletion stops the pass with Drive's error.
     */
    method ApplyRetentionPolicy(drive: Drive, keep: int) returns (err: Option<string>)
      requires drive.Valid() && keep >= 0
      modifies drive
      ensures drive.Valid() && drive.nextId == old(drive.nextId)
      ensures old(drive.folder).None? ==> err.None? && drive.folder.None?
      ensures old(drive.folder).Some? ==>
                drive.folder.Some? && (err, drive.folder.value) == RetentionEffect(old(drive.folder).value, keep, drive.answers.deleteError)
    {
      if drive.folder.None? {
        return None;
      }
      var files := drive.folder.value;
      var toDelete := |files| - keep;
      if toDelete <= 0 {
        assert files[0..] == files;
        RetentionEffectAt(files, keep, drive.answers.deleteError, 0);
        return None;
      }
      for i := 0 to toDelete
        invariant drive.Valid() && drive.nextId == old(drive.nextId)
        invariant drive.folder == Some(files[i..])
        invariant forall k :: 0 <= k < i ==> drive.answers.deleteError(files[k].id).None?
      {
        WithoutFileFirst(files[i..]);
        assert files[i..][1..] == files[i + 1..];
        err := drive.Delete(files[i].id);
        if err.Some? {
          RetentionEffectAt(files, keep, drive.answers.deleteError, i);
          return;
        }
      }
      RetentionEffectAt(files, keep, drive.answers.deleteError, toDelete);
      err := None;
    }

    /**
     * The directory loop of runBackup: each directory is archived and its
     * archive uploaded, in order, and the first failure is thrown; the
     * directories after it are not touched.
     */
    method ArchiveDirectories(drive: Drive, dirs: seq<string>, ar: Archiver) returns (failure: Option<string>)
      requires drive.Valid()
      modifies drive
      ensures drive.Valid()
      ensures var j := FirstFailing(dirs, ar, true, drive.answers);
              && (failure.Some? <==> j < |dirs|)
              && (j < |dirs| ==> failure == DirFailure(dirs[j], ar, true, drive.answers))
              && drive.folder == AfterArchiving(old(drive.folder), old(drive.nextId), dirs, ar, true, drive.answers)
              && drive.nextId == old(drive.nextId) + j
    {
      var i := 0;
      while i < |dirs|
        invariant 0 <= i <= |dirs|
        invariant drive.Valid()
        invariant i <= FirstFailing(dirs, ar, true, drive.answers)
        invariant drive.nextId == old(drive.nextId) + i
        invariant drive.folder == FolderAfter(old(drive.folder), old(drive.nextId), dirs, i)
      {
        var dir := dirs[i];
        if ar.exitCode(dir) != 0 {
          FirstFailingHere(dirs, ar, true, drive.answers, i);
          AfterArchivingAt(old(drive.folder), old(drive.nextId), dirs, ar, true, drive.answers, i);
          return Some(ErrArchivePrefix + dir);
        }
        ghost var before := drive.folder;
        var up := UploadFileToDrive(drive, ArchiveName(dir), ar.archiveSize(dir));
        if up.Thrown? {
          FirstFailingHere(dirs, ar, true, drive.answers, i);
          AfterArchivingAt(old(drive.folder), old(drive.nextId), dirs, ar, true, drive.answers, i);
          return Some(up.message);
        }
        assert drive.folder == Some(Listing(before) + [DriveFile(old(drive.nextId) + i, ArchiveName(dir))]);
        FirstFailingPast(dirs, ar, true, drive.answers, i);
        FolderAfterStep(old(drive.folder), old(drive.nextId), dirs, i);
        i := i + 1;
      }
      FirstFailingHere(dirs, ar, true, drive.answers, |dirs|);
      AfterArchivingAt(old(drive.folder), old(drive.nextId), dirs, ar, true, drive.answers, |dirs|);
      failure := None;
    }

    /**
     * runBackup: a run that is not connected fails before archiving and
     * leaves Drive alone; otherwise directories are archived and uploaded in
     * order, the first failure ends the run, and a run that gets through all
     * of them applies the retention policy. Every failure is returned.
     */
    method RunBackup(drive: Drive, ar: Archiver, expired: bool, refresh: RefreshReply) returns (r: RunResult)
      requires Valid() && drive.Valid()
      modifies pm, drive
      ensures Valid() && drive.Valid()
      ensures pm.data == TopApiController.CreateClient(old(pm.data), api.baseUrl, expired, refresh).store
      ensures !Connected(old(pm.data), api.baseUrl, expired, refresh) ==>
                && r == Failed(AbortError(old(pm.data), api.baseUrl, expired, refresh))
                && drive.folder == old(drive.folder) && drive.nextId == old(drive.nextId)
      ensures Connected(old(pm.data), api.baseUrl, expired, refresh) ==>
                && 1 <= GetSettings(old(pm.data)).retentionCount
                && (r, drive.folder) == RunEffect(old(drive.folder), old(drive.nextId), BackupDirs(old(pm.data)),
                                                  GetSettings(old(pm.data)).retentionCount, ar, true, drive.answers)
    {
      var settings := GetSettings(pm.data);
      WellFormedSettingsRead(pm.data);
      var c := api.CreateGoogleClient(expired, refresh);
      ClientKeepsSettings(old(pm.data), api.baseUrl, expired, refresh);
      if c.Thrown? {
        return Failed(c.message);
      }
      if c.value.accessToken.None? || EmptyString(c.value.accessToken.value) {
        return Failed(ErrNotConnected);
      }
      var dirs := if settings.backupDirs.Some? then settings.backupDirs.value else [];
      r := RunSteps(drive, dirs, settings.retentionCount, ar);
    }

    /**
     * runBackup with createGoogleClient as written: an \Error from the
     * failed refresh escapes the run before archiving, with Drive untouched;
     * otherwise the run ends as RunBackup's does.
     */
    method RunBackupAsWritten(drive: Drive, ar: Archiver, expired: bool, refresh: RefreshReply) returns (e: RunEnd)
      requires Valid() && drive.Valid()
      modifies pm, drive
      ensures Valid() && drive.Valid()
      ensures var s := TopApiController.CreateClientAsWritten(old(pm.data), api.baseUrl, expired, refresh);
              && pm.data == s.store
              && (s.outcome.Fatal? ==>
                    e == Crashed(s.outcome.message) && drive.folder == old(drive.folder) && drive.nextId == old(drive.nextId))
              && (!s.outcome.Fatal? && !ConnectedBy(s.outcome) ==>
                    e == Returned(Failed(AbortErrorBy(s.outcome))) && drive.folder == old(drive.folder) && drive.nextId == old(drive.nextId))
              && (ConnectedBy(s.outcome) ==>
                    && e.Returned?
                    && (e.result, drive.folder) == RunEffect(old(drive.folder), old(drive.nextId), BackupDirs(old(pm.data)),
                                                             GetSettings(old(pm.data)).retentionCount, ar, true, drive.answers))
    {
      var settings := GetSettings(pm.data);
      WellFormedSettingsRead(pm.data);
      var o := api.CreateGoogleClientAsWritten(expired, refresh);
      ClientKeepsSettings(old(pm.data), api.baseUrl, expired, refresh);
      if o.Fatal? {
        return Crashed(o.message);
      }
      if o.Threw? {
        return Returned(Failed(o.message));
      }
      if o.client.accessToken.None? || EmptyString(o.client.accessToken.value) {
        return Returned(Failed(ErrNotConnected));
      }
      var dirs := if settings.backupDirs.Some? then settings.backupDirs.value else [];
      var r := RunSteps(drive, dirs, settings.retentionCount, ar);
      e := Returned(r);
    }

    /**
     * The part of runBackup's try block after the connection check: the
     * directories are archived and uploaded, and a run that gets through all
     * of them applies the retention policy.
     */
    method RunSteps(drive: Drive, dirs: seq<string>, keep: int, ar: Archiver) returns (r: RunResult)
      requires drive.Valid() && keep >= 0
      modifies drive
      ensures drive.Valid()
      ensures (r, drive.folder) == RunEffect(old(drive.folder), old(drive.nextId), dirs, keep, ar, true, drive.answers)
    {
      var failure := ArchiveDirectories(drive, dirs, ar);
      if failure.Some? {
        return Failed(failure.value);
      }
      var err := ApplyRetentionPolicy(drive, keep);
      if err.Some? {
        return Failed(err.value);
      }
      r := Completed;
    }
  }
}
