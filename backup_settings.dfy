/**
 * The backup settings rules that both copies of BackupController share
 * word for word: the three validations of saveSettings, the three keys it
 * writes, the defaults getSettings fills in, and the frequency-to-cron
 * table of configureCronJob.
 */
module BackupSettings {
  import opened PhpRuntime
  import opened JsonCodec
  import opened SettingsStore

  datatype Frequency = Daily | Weekly | Monthly

  /** The name a frequency is stored under in `backup_freq`. */
  function FrequencyName(f: Frequency): string
  {
    match f
    case Daily => "daily"
    case Weekly => "weekly"
    case Monthly => "monthly"
  }

  /** `in_array($backupFreq, ['daily', 'weekly', 'monthly'])`, with the frequency named. */
  function ParseFrequency(s: string): (r: Option<Frequency>)
    ensures r.Some? <==> (s == "daily" || s == "weekly" || s == "monthly")
    ensures r.Some? ==> FrequencyName(r.value) == s
  {
    if s == "daily" then Some(Daily)
    else if s == "weekly" then Some(Weekly)
    else if s == "monthly" then Some(Monthly)
    else None
  }

  lemma {:induction false} FrequencyNameRoundTrip(f: Frequency)
    ensures ParseFrequency(FrequencyName(f)) == Some(f)
  {
  }

  /** The cron expression registered for each frequency: always 02:00. */
  function CronSchedule(f: Frequency): string
  {
    match f
    case Daily => "0 2 * * *"
    case Weekly => "0 2 * * 0"
    case Monthly => "0 2 1 * *"
  }

  /** The `switch ($frequency)` of configureCronJob: no matching case leaves the schedule ''. */
  function ScheduleFor(freq: string): string
  {
    match ParseFrequency(freq)
    case Some(f) => CronSchedule(f)
    case None => ""
  }

  /** The table is exact, and different frequencies get different schedules. */
  lemma {:induction false} ScheduleTable(freq: string)
    ensures ScheduleFor("daily") == "0 2 * * *"
    ensures ScheduleFor("weekly") == "0 2 * * 0"
    ensures ScheduleFor("monthly") == "0 2 1 * *"
    ensures ParseFrequency(freq).None? ==> ScheduleFor(freq) == ""
    ensures forall f, g :: CronSchedule(f) == CronSchedule(g) ==> f == g
  {
  }

  /** Settings that passed validation. */
  datatype Settings = Settings(dirs: seq<string>, frequency: Frequency, retention: int)

  const ErrNoDirectories: string := "At least one backup directory must be selected"
  const ErrFrequency: string := "Invalid backup frequency"
  const ErrRetention: string := "Retention count must be between 1 and 100"

  /**
   * The checks saveSettings makes before it writes anything, in their
   * order; the retention count is compared after the `(int)` cast.
   */
  function ValidateSettings(dirs: seq<string>, freq: string, retention: Scalar): (r: Result<Settings>)
    ensures |dirs| == 0 ==> r == Thrown(ErrNoDirectories)
    ensures |dirs| > 0 && ParseFrequency(freq).None? ==> r == Thrown(ErrFrequency)
    ensures |dirs| > 0 && ParseFrequency(freq).Some? && !(1 <= IntOf(retention) <= 100) ==> r == Thrown(ErrRetention)
    ensures r.Ok? <==> |dirs| > 0 && ParseFrequency(freq).Some? && 1 <= IntOf(retention) <= 100
    ensures r.Ok? ==> r.value.dirs == dirs && FrequencyName(r.value.frequency) == freq
                      && r.value.retention == IntOf(retention)
  {
    if |dirs| == 0 then Thrown(ErrNoDirectories)
    else match ParseFrequency(freq)
      case None => Thrown(ErrFrequency)
      case Some(f) =>
        var n := IntOf(retention);
        if n < 1 || n > 100 then Thrown(ErrRetention) else Ok(Settings(dirs, f, n))
  }

  /** The store after the three writes of saveSettings. */
  function WriteSettings(m: map<string, string>, s: Settings): map<string, string>
  {
    m[KeyBackupDirs := EncodeStrings(s.dirs)]
     [KeyBackupFreq := FrequencyName(s.frequency)]
     [KeyRetentionCount := DecimalString(s.retention)]
  }

  /** What getSettings returns: backupDirs is null when the stored text is not a list. */
  datatype StoredSettings = StoredSettings(backupDirs: Option<seq<string>>, backupFreq: string, retentionCount: int)

  /** getSettings: the stored values, or '[]', 'daily' and 5 for keys never set. */
  function GetSettings(m: map<string, string>): StoredSettings
  {
    StoredSettings(
      DecodeStrings(Lookup(m, KeyBackupDirs, "[]")),
      Lookup(m, KeyBackupFreq, "daily"),
      if KeyRetentionCount in m then CastInt(m[KeyRetentionCount]) else 5)
  }

  /** The writes of saveSettings touch exactly the three settings keys. */
  lemma {:induction false} WriteSettingsFrame(m: map<string, string>, s: Settings)
    ensures WriteSettings(m, s).Keys == m.Keys + {KeyBackupDirs, KeyBackupFreq, KeyRetentionCount}
    ensures forall k :: k in m && k != KeyBackupDirs && k != KeyBackupFreq && k != KeyRetentionCount
                        ==> WriteSettings(m, s)[k] == m[k]
  {
  }

  /** getSettings after saveSettings returns what was saved. */
  lemma {:induction false} SettingsRoundTrip(m: map<string, string>, s: Settings)
    ensures GetSettings(WriteSettings(m, s)) == StoredSettings(Some(s.dirs), FrequencyName(s.frequency), s.retention)
  {
    StringsRoundTrip(s.dirs);
    DecimalStringRoundTrip(s.retention);
  }

  /** On a store that never saw saveSettings, getSettings gives [], 'daily' and 5. */
  lemma {:induction false} DefaultSettings()
    ensures GetSettings(map[]) == StoredSettings(Some([]), "daily", 5)
    ensures GetSettings(InstallDefaults) == StoredSettings(Some([]), "daily", 5)
  {
    DecimalStringRoundTrip(5);
    assert NatDigits(5) == "5";
  }

  /**
   * What saveSettings guarantees about the settings keys: whatever is stored
   * there decodes, names a frequency and holds a retention count in [1, 100].
   */
  ghost predicate SettingsWellFormed(m: map<string, string>)
  {
    && (KeyBackupDirs in m ==> DecodeStrings(m[KeyBackupDirs]).Some?)
    && (KeyBackupFreq in m ==> ParseFrequency(m[KeyBackupFreq]).Some?)
    && (KeyRetentionCount in m ==> 1 <= CastInt(m[KeyRetentionCount]) <= 100)
  }

  lemma {:induction false} WellFormedSettingsRead(m: map<string, string>)
    requires SettingsWellFormed(m)
    ensures GetSettings(m).backupDirs.Some?
    ensures ParseFrequency(GetSettings(m).backupFreq).Some?
    ensures 1 <= GetSettings(m).retentionCount <= 100
  {
  }

  /** Validated settings, once written, keep the settings keys well formed. */
  lemma {:induction false} WriteSettingsWellFormed(m: map<string, string>, dirs: seq<string>, freq: string, retention: Scalar)
    requires ValidateSettings(dirs, freq, retention).Ok?
    ensures SettingsWellFormed(WriteSettings(m, ValidateSettings(dirs, freq, retention).value))
  {
    var s := ValidateSettings(dirs, freq, retention).value;
    StringsRoundTrip(s.dirs);
    DecimalStringRoundTrip(s.retention);
  }

  lemma {:induction false} InstallDefaultsWellFormed()
    ensures SettingsWellFormed(InstallDefaults)
  {
    DefaultSettings();
  }

  /** `pm_Context::getPlibDir() . 'scripts/backup.php'`. */
  function ScriptPath(plibDir: string): string
  {
    plibDir + "scripts/backup.php"
  }

  /** The directories runBackup loops over: the stored list, or none when it does not decode (foreach over null). */
  function BackupDirs(m: map<string, string>): seq<string>
  {
    match GetSettings(m).backupDirs
    case Some(dirs) => dirs
    case None => []
  }
}
