/**
 * The backup transport hook: Google Drive as a destination of Plesk's own
 * backups. Its answers are derived from the settings store like the
 * provider hook's; uploading, listing and the rest are placeholders. As
 * there, the store is passed as an Option, None standing for a throwing
 * `pm_Settings::getInstance()`.
 */
module BackupTransport {
  import opened PhpRuntime
  import opened SettingsStore
  import RemoteStorageProvider

  /** The status codes of Plesk's transport hook. */
  datatype Status = StatusOk | StatusError | StatusNotConfigured

  /** isConfigured: the stored client id and access token are both not empty; false when the settings cannot be read. */
  predicate IsConfigured(settings: Option<map<string, string>>)
  {
    settings.Some? && !EmptyString(Lookup(settings.value, KeyClientId, "")) && !EmptyString(Lookup(settings.value, KeyAccessToken, ""))
  }

  /** The transport and the storage provider agree on whether Google Drive is configured. */
  lemma {:induction false} ConfiguredLikeProvider(settings: Option<map<string, string>>)
    ensures IsConfigured(settings) <==> RemoteStorageProvider.IsConfigured(settings)
  {
  }

  /**
   * getStatus: not configured unless configured with a non-empty token,
   * else OK. The token was already checked by isConfigured and reading it
   * again cannot throw, so an error is never reported.
   */
  function GetStatus(settings: Option<map<string, string>>): (r: Status)
    ensures r == StatusNotConfigured <==> !IsConfigured(settings)
    ensures r != StatusError
  {
    if !IsConfigured(settings) then StatusNotConfigured
    else if EmptyString(Lookup(settings.value, KeyAccessToken, "")) then StatusNotConfigured
    else StatusOk
  }

  const MsgConnected: string := "Connected to Google Drive"
  const MsgError: string := "Error connecting to Google Drive"
  const MsgNotConfigured: string := "Google Drive storage is not configured"

  /** The switch of getStatusMessage: OK and ERROR have their own message, anything else reads as not configured. */
  function MessageFor(status: Status): (r: string)
    ensures r == MsgConnected <==> status == StatusOk
    ensures r == MsgError <==> status == StatusError
    ensures r == MsgNotConfigured <==> status == StatusNotConfigured
  {
    match status
    case StatusOk => MsgConnected
    case StatusError => MsgError
    case StatusNotConfigured => MsgNotConfigured
  }

  /** getStatusMessage: 'Connected to Google Drive' exactly when configured, and never the error message. */
  function GetStatusMessage(settings: Option<map<string, string>>): (r: string)
    ensures r == MsgConnected <==> IsConfigured(settings)
    ensures r == MsgNotConfigured <==> !IsConfigured(settings)
  {
    MessageFor(GetStatus(settings))
  }

  datatype Quota = Quota(total: int, used: int, free: int)

  /** 1 TB, the placeholder quota of a configured transport. */
  const PlaceholderQuota: int := 1099511627776

  /** getQuota: all zeros when not configured, else the placeholder 1 TB with nothing used. */
  function GetQuota(settings: Option<map<string, string>>): (r: Quota)
    ensures r.free == r.total - r.used && r.used == 0
    ensures r.total == if IsConfigured(settings) then 1099511627776 else 0
  {
    if !IsConfigured(settings) then Quota(0, 0, 0) else Quota(PlaceholderQuota, 0, PlaceholderQuota)
  }

  const ErrNotConfigured: string := "Google Drive storage is not configured. Please configure credentials in the extension settings."
  const ErrUnreachable: string := "Unable to connect to Google Drive. Please check your credentials."

  /** validate: the message it returns, None when it returns true. */
  function Validate(settings: Option<map<string, string>>): (r: Option<string>)
  {
    if !IsConfigured(settings) then Some(ErrNotConfigured)
    else if GetStatus(settings) == StatusError then Some(ErrUnreachable)
    else None
  }

  /**
   * A transport validates exactly when it is configured, and otherwise says
   * so; the unable-to-connect message is never returned.
   */
  lemma {:induction false} ValidateExactly(settings: Option<map<string, string>>)
    ensures Validate(settings).None? <==> IsConfigured(settings)
    ensures Validate(settings).Some? ==> Validate(settings).value == ErrNotConfigured
    ensures Validate(settings) != Some(ErrUnreachable)
  {
    assert ErrNotConfigured != ErrUnreachable by {
      assert |ErrNotConfigured| != |ErrUnreachable|;
    }
  }

  /** upload: the local file must exist (`fileExists` is file_exists); the transfer itself is a placeholder that succeeds. */
  function Upload(localPath: string, remotePath: string, fileExists: string -> bool): (r: Result<bool>)
    ensures r.Thrown? <==> !fileExists(localPath)
    ensures r.Thrown? ==> r.message == "Local file not found: " + localPath
    ensures r.Ok? ==> r.value
  {
    if !fileExists(localPath) then Thrown("Local file not found: " + localPath) else Ok(true)
  }

  /** listFiles: the placeholder lists nothing, whatever the path. */
  function ListFiles(remotePath: string): (r: seq<string>)
    ensures |r| == 0
  {
    []
  }

  const Name: string := "GDrive AutoBackups"
  const Id: string := "gdrive-autobackups"
  const SupportsRestore: bool := true
  const RequiresAuthentication: bool := true
}
