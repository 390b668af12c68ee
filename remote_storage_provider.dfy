/**
 * The remote storage provider hook: what Plesk's Backup Manager is told
 * about Google Drive as a storage backend. Every answer is derived from the
 * settings store. `pm_Settings::getInstance()` either hands out the store or
 * throws; the model passes the store as an Option, None standing for the
 * throw.
 */
module RemoteStorageProvider {
  import opened PhpRuntime
  import opened SettingsStore

  /** The status codes of Plesk's storage hooks. */
  datatype Status = StatusOk | StatusError | StatusNotConfigured

  /**
   * isConfigured: a client id and an access token are both stored and not
   * empty (PHP `empty()`, so "0" counts as empty); false when the settings
   * cannot be read.
   */
  predicate IsConfigured(settings: Option<map<string, string>>)
  {
    match settings
    case None => false
    case Some(m) => !EmptyString(Lookup(m, KeyClientId, "")) && !EmptyString(Lookup(m, KeyAccessToken, ""))
  }

  /** Configured exactly when both keys are present with a value other than "" and "0". */
  lemma {:induction false} IsConfiguredExactly(settings: Option<map<string, string>>)
    ensures IsConfigured(settings) <==>
              && settings.Some?
              && KeyClientId in settings.value && settings.value[KeyClientId] !in {"", "0"}
              && KeyAccessToken in settings.value && settings.value[KeyAccessToken] !in {"", "0"}
  {
  }

  /** The two settings the unit tests use: cleared keys, then a test id and token. */
  lemma {:induction false} IsConfiguredCases(m: map<string, string>)
    ensures !IsConfigured(Some(m[KeyClientId := ""][KeyAccessToken := ""]))
    ensures IsConfigured(Some(m[KeyClientId := "test-client-id"][KeyAccessToken := "test-token"]))
    ensures !IsConfigured(None)
  {
    assert KeyClientId != KeyAccessToken;
  }

  /** getStatus: not configured, or OK; the check cannot fail, so an error is never reported. */
  function GetStatus(settings: Option<map<string, string>>): (r: Status)
    ensures r == StatusNotConfigured <==> !IsConfigured(settings)
    ensures r != StatusError
  {
    if !IsConfigured(settings) then StatusNotConfigured else StatusOk
  }

  const ErrNotConfigured: string := "Google Drive storage provider is not configured. Please set up your Google credentials."

  /** validate: the error it throws, None when it returns normally. */
  function Validate(settings: Option<map<string, string>>): (r: Option<string>)
    ensures r.Some? <==> GetStatus(settings) == StatusNotConfigured
    ensures r.Some? ==> r.value == ErrNotConfigured
  {
    if !IsConfigured(settings) then Some(ErrNotConfigured) else None
  }

  /**
   * getStatusMessage. The 'Status unknown' branch answers a settings read
   * that throws after isConfigured has read the settings successfully.
   */
  function GetStatusMessage(settings: Option<map<string, string>>): (r: string)
  {
    if !IsConfigured(settings) then "Not configured"
    else match settings
      case None => "Status unknown"
      case Some(m) =>
        var account := Lookup(m, KeyAccountEmail, "");
        if !EmptyString(account) then "Connected as " + HtmlEscape(account) else "Configured"
  }

  /**
   * The message is 'Not configured' exactly when the provider is not
   * configured; otherwise it names the stored account, escaped, or says
   * 'Configured' when none is stored. With one store read throughout,
   * 'Status unknown' is never the answer.
   */
  lemma {:induction false} StatusMessageCases(settings: Option<map<string, string>>)
    ensures GetStatusMessage(settings) == "Not configured" <==> !IsConfigured(settings)
    ensures IsConfigured(settings) ==>
              var account := Lookup(settings.value, KeyAccountEmail, "");
              GetStatusMessage(settings) == if EmptyString(account) then "Configured" else "Connected as " + HtmlEscape(account)
    ensures GetStatusMessage(settings) != "Status unknown"
  {
    if IsConfigured(settings) {
      var account := Lookup(settings.value, KeyAccountEmail, "");
      if !EmptyString(account) {
        var r := GetStatusMessage(settings);
        assert r[0] == 'C' && "Not configured"[0] == 'N' && "Status unknown"[0] == 'S';
      }
    }
  }

  /** An account address without markup characters appears in the message as stored. */
  lemma {:induction false} StatusMessageNamesAccount(m: map<string, string>)
    requires IsConfigured(Some(m)) && KeyAccountEmail in m && !EmptyString(m[KeyAccountEmail])
    requires forall i :: 0 <= i < |m[KeyAccountEmail]| ==> !IsHtmlSpecial(m[KeyAccountEmail][i])
    ensures GetStatusMessage(Some(m)) == "Connected as " + m[KeyAccountEmail]
  {
    HtmlEscapePlain(m[KeyAccountEmail]);
  }

  // ---------------------------------------------------------------------
  // getStorageStats
  // ---------------------------------------------------------------------

  datatype StorageStats = StorageStats(used: int, total: int, free: int)

  /**
   * The array json_decode makes of the cached `google_storage_stats` text:
   * `cached_at` as a timestamp (0 when missing), and the three figures as
   * the values stored under them (null when missing).
   */
  datatype CachedStats = CachedStats(cachedAt: int, used: Scalar, total: Scalar, free: Scalar)

  /** 100 GB, reported when no fresh cache is stored. */
  const DefaultQuota: int := 107374182400
  /** A cache younger than an hour is used. */
  const CacheLifetime: int := 3600

  /**
   * The cached figures that may be used at time `now`: the stored text is
   * not empty, decodes to an array, and carries a `cached_at` that is not
   * empty and less than an hour in the past.
   */
  function FreshCache(m: map<string, string>, decode: string -> Option<CachedStats>, now: int): Option<CachedStats>
  {
    var text := Lookup(m, KeyStorageStats, "");
    if EmptyString(text) then None
    else match decode(text)
      case None => None
      case Some(stats) => if stats.cachedAt != 0 && now - stats.cachedAt < CacheLifetime then Some(stats) else None
  }

  /**
   * getStorageStats: all zeros when the settings cannot be read. Otherwise
   * the stored figures, cast to integers, are reported exactly when the
   * cached text is not empty, decodes, and carries a `cached_at` that is
   * not empty and less than an hour in the past; else nothing is used and
   * the whole default quota is free. `decode` is json_decode on the cached
   * text.
   */
  function GetStorageStats(settings: Option<map<string, string>>, decode: string -> Option<CachedStats>, now: int): (r: StorageStats)
    ensures settings.None? ==> r == StorageStats(0, 0, 0)
    ensures settings.Some? ==>
              var text := Lookup(settings.value, KeyStorageStats, "");
              var live := !EmptyString(text) && decode(text).Some? && decode(text).value.cachedAt != 0
                           && now - decode(text).value.cachedAt < 3600;
              && (live ==> r == StorageStats(IntOf(decode(text).value.used), IntOf(decode(text).value.total), IntOf(decode(text).value.free)))
              && (!live ==> r == StorageStats(0, 107374182400, 107374182400) && r.used + r.free == r.total)
  {
    match settings
    case None => StorageStats(0, 0, 0)
    case Some(m) =>
      match FreshCache(m, decode, now)
      case Some(stats) => StorageStats(IntOf(stats.used), IntOf(stats.total), IntOf(stats.free))
      case None => StorageStats(0, DefaultQuota, DefaultQuota)
  }

  /** A cache that is stale stays stale: at any later time it is not used either. */
  lemma {:induction false} StaleCacheStaysStale(m: map<string, string>, decode: string -> Option<CachedStats>, now: int, later: int)
    requires now <= later && FreshCache(m, decode, now).None?
    ensures FreshCache(m, decode, later).None?
    ensures GetStorageStats(Some(m), decode, later) == StorageStats(0, DefaultQuota, DefaultQuota)
  {
  }

  /** A cache written with a timestamp of `at` is used for exactly the hour that follows. */
  lemma {:induction false} CacheFreshForAnHour(m: map<string, string>, decode: string -> Option<CachedStats>, now: int)
    requires !EmptyString(Lookup(m, KeyStorageStats, "")) && decode(Lookup(m, KeyStorageStats, "")).Some?
    requires decode(Lookup(m, KeyStorageStats, "")).value.cachedAt != 0
    ensures var at := decode(Lookup(m, KeyStorageStats, "")).value.cachedAt;
            FreshCache(m, decode, now).Some? <==> now < at + 3600
  {
  }

  // ---------------------------------------------------------------------
  // Constant answers
  // ---------------------------------------------------------------------

  datatype ProviderInfo = ProviderInfo(id: string, kind: string, name: string, description: string, icon: string, vendor: string)

  /** getInfo: the identity Plesk lists the provider under. */
  function GetInfo(): (r: ProviderInfo)
    ensures r.id == "gdrive" && r.kind == "cloud" && r.name == GetName()
  {
    ProviderInfo("gdrive", "cloud", "Google Drive", "Automatically store backups on Google Drive", "icon.png", "ProgrammerNomad")
  }

  function GetName(): string
  {
    "Google Drive"
  }

  /** supportsRestore and requiresAuthentication both answer true. */
  const SupportsRestore: bool := true
  const RequiresAuthentication: bool := true
}
