/**
 * The host's key-value settings store (pm_Settings): string keys, string
 * values, and a read that falls back to a caller-supplied default when the
 * key was never set. Every controller of the extension reads and writes
 * the same store object.
 */
module SettingsStore {

  const KeyClientId: string := "google_client_id"
  const KeyClientSecret: string := "google_client_secret"
  const KeyRedirectUri: string := "google_redirect_uri"
  const KeyAccessToken: string := "google_access_token"
  const KeyAccountEmail: string := "google_account_email"
  const KeyStorageStats: string := "google_storage_stats"
  const KeyBackupDirs: string := "backup_dirs"
  const KeyBackupFreq: string := "backup_freq"
  const KeyRetentionCount: string := "retention_count"
  const KeyBackupLogs: string := "backup_logs"

  /** `$pm->get($key, $default)`. */
  function Lookup(m: map<string, string>, key: string, default: string): (v: string)
    ensures key in m ==> v == m[key]
    ensures key !in m ==> v == default
  {
    if key in m then m[key] else default
  }

  /** A read after a write: the written key gives the written value, and every other key reads as it did before. */
  lemma {:induction false} LookupAfterSet(m: map<string, string>, key: string, value: string, other: string, default: string)
    ensures Lookup(m[key := value], key, default) == value
    ensures other != key ==> Lookup(m[key := value], other, default) == Lookup(m, other, default)
  {
  }

  /** The values the extension is installed with (its configuration defaults hook). */
  const InstallDefaults: map<string, string> := map[
    KeyClientId := "",
    KeyClientSecret := "",
    KeyRedirectUri := "",
    KeyAccessToken := "",
    KeyBackupDirs := "[]",
    KeyBackupFreq := "daily",
    KeyRetentionCount := "5",
    KeyBackupLogs := "[]"
  ]

  class Store {
    var data: map<string, string>

    constructor (initial: map<string, string>)
      ensures data == initial
    {
      data := initial;
    }

    /** `$pm->set($key, $value)`. */
    method Set(key: string, value: string)
      modifies this
      ensures data == old(data)[key := value]
    {
      data := data[key := value];
    }
  }
}
