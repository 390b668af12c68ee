/**
 * The backup event log kept under `backup_logs`: a JSON list of entries,
 * newest first, capped at 100. Only the nested copy of BackupController
 * writes it; both copies read it with getLogs.
 */
module EventLog {
  import opened PhpRuntime
  import opened JsonCodec
  import opened SettingsStore

  /** logBackupEvent's default level, and the level of the entry a failed run ends with. */
  const LevelInfo: string := "INFO"
  const LevelError: string := "ERROR"

  /** `count($logsArray) > 100` ... `array_slice($logsArray, 0, 100)`. */
  const LogCapacity: nat := 100

  /** The log after logBackupEvent: the new entry put in front, then only the first 100 kept. */
  function PushCapped(log: seq<LogEntry>, e: LogEntry): seq<LogEntry>
  {
    var l := [e] + log;
    if |l| > LogCapacity then l[..LogCapacity] else l
  }

  /**
   * The new entry is the newest, the earlier entries follow in their order,
   * and only the oldest are dropped, one at a time, once the log is full.
   */
  lemma {:induction false} PushCappedShape(log: seq<LogEntry>, e: LogEntry)
    ensures |PushCapped(log, e)| == if |log| < LogCapacity then |log| + 1 else LogCapacity
    ensures PushCapped(log, e)[0] == e
    ensures PushCapped(log, e)[1..] == log[..|PushCapped(log, e)| - 1]
    ensures |log| < LogCapacity ==> PushCapped(log, e) == [e] + log
  {
    var r := PushCapped(log, e);
    assert r[1..] == log[..|r| - 1];
  }

  /** A log that has reached its cap stays at exactly 100 entries. */
  lemma {:induction false} FullLogStaysFull(log: seq<LogEntry>, events: seq<LogEntry>)
    requires |log| == LogCapacity
    ensures |PushAll(log, events)| == LogCapacity
    ensures |events| <= LogCapacity ==> PushAll(log, events)[|events|..] == log[..LogCapacity - |events|]
    decreases |events|
  {
    if |events| > 0 {
      var before := PushAll(log, events[..|events| - 1]);
      FullLogStaysFull(log, events[..|events| - 1]);
      PushCappedShape(before, events[|events| - 1]);
      var after := PushCapped(before, events[|events| - 1]);
      if |events| <= LogCapacity {
        var n := |events|;
        assert before[n - 1..] == log[..LogCapacity - (n - 1)];
        calc {
          after[n..];
          after[1..][n - 1..];
          before[..LogCapacity - 1][n - 1..];
          before[n - 1..][..LogCapacity - n];
          log[..LogCapacity - (n - 1)][..LogCapacity - n];
          log[..LogCapacity - n];
        }
      }
    }
  }

  /** The log after a run of logBackupEvent calls, the last of `events` logged last. */
  function PushAll(log: seq<LogEntry>, events: seq<LogEntry>): (r: seq<LogEntry>)
    ensures |r| <= LogCapacity || (|events| == 0 && r == log)
    decreases |events|
  {
    if |events| == 0 then log else PushCapped(PushAll(log, events[..|events| - 1]), events[|events| - 1])
  }

  /** getLogs: the decoded `backup_logs`, '[]' when never written; None when the text does not decode. */
  function GetLogs(m: map<string, string>): Option<seq<LogEntry>>
  {
    DecodeLog(LogText(m))
  }

  /** The stored text of the log, '[]' when never written. */
  function LogText(m: map<string, string>): string
  {
    Lookup(m, KeyBackupLogs, "[]")
  }

  /** The stored log decodes and holds at most 100 entries. */
  ghost predicate LogWellFormed(m: map<string, string>)
  {
    GetLogs(m).Some? && |GetLogs(m).value| <= LogCapacity
  }

  /** A log never written reads as the empty list, on an empty store and on the installed defaults. */
  lemma {:induction false} LogDefault()
    ensures GetLogs(map[]) == Some([]) && GetLogs(InstallDefaults) == Some([])
    ensures LogWellFormed(map[]) && LogWellFormed(InstallDefaults)
    ensures Stores(map[], []) && Stores(InstallDefaults, [])
  {
    assert Lookup(InstallDefaults, KeyBackupLogs, "[]") == "[]";
  }

  /** The store after logBackupEvent. */
  function WriteEvent(m: map<string, string>, e: LogEntry): map<string, string>
    requires GetLogs(m).Some?
  {
    m[KeyBackupLogs := EncodeLog(PushCapped(GetLogs(m).value, e))]
  }

  /** After logBackupEvent, getLogs returns the capped log with the new entry first; only `backup_logs` changes. */
  lemma {:induction false} WriteEventRead(m: map<string, string>, e: LogEntry)
    requires GetLogs(m).Some?
    ensures GetLogs(WriteEvent(m, e)) == Some(PushCapped(GetLogs(m).value, e))
    ensures LogWellFormed(WriteEvent(m, e))
    ensures GetLogs(WriteEvent(m, e)).value[0] == e
    ensures SameExceptLogs(WriteEvent(m, e), m)
  {
    LogRoundTrip(PushCapped(GetLogs(m).value, e));
    PushCappedShape(GetLogs(m).value, e);
  }

  /** The two stores agree on every key but `backup_logs`. */
  ghost predicate SameExceptLogs(a: map<string, string>, b: map<string, string>)
  {
    a - {KeyBackupLogs} == b - {KeyBackupLogs}
  }

  /** Agreeing on every key but `backup_logs` is agreeing key by key. */
  lemma {:induction false} SameExceptLogsAt(a: map<string, string>, b: map<string, string>, k: string)
    requires SameExceptLogs(a, b) && k != KeyBackupLogs
    ensures (k in a <==> k in b) && (k in a ==> a[k] == b[k])
  {
    assert k in a <==> k in a - {KeyBackupLogs};
    assert k in b <==> k in b - {KeyBackupLogs};
    if k in a {
      assert a[k] == (a - {KeyBackupLogs})[k];
      assert b[k] == (b - {KeyBackupLogs})[k];
    }
  }

  lemma {:induction false} SameExceptLogsTrans(a: map<string, string>, b: map<string, string>, c: map<string, string>)
    requires SameExceptLogs(a, b) && SameExceptLogs(b, c)
    ensures SameExceptLogs(a, c)
  {
  }

  /** Logging a then b is logging a + b. */
  lemma {:induction false} PushAllAppend(log: seq<LogEntry>, a: seq<LogEntry>, b: seq<LogEntry>)
    ensures PushAll(PushAll(log, a), b) == PushAll(log, a + b)
    decreases |b|
  {
    if |b| == 0 {
      assert a + b == a;
    } else {
      PushAllAppend(log, a, b[..|b| - 1]);
      assert (a + b)[..|a + b| - 1] == a + b[..|b| - 1];
    }
  }

  /** The one-event log is the entry pushed onto the log. */
  lemma {:induction false} PushAllOne(log: seq<LogEntry>, e: LogEntry)
    ensures PushAll(log, [e]) == PushCapped(log, e)
  {
    assert [e][..0] == [];
  }

  /** Logging one more event after a run of them. */
  lemma {:induction false} PushAllSnoc(log: seq<LogEntry>, events: seq<LogEntry>, e: LogEntry)
    ensures PushAll(log, events + [e]) == PushCapped(PushAll(log, events), e)
  {
    PushAllAppend(log, events, [e]);
    PushAllOne(PushAll(log, events), e);
  }

  /** After a run of logBackupEvent calls, the newest entry of the log is the last event logged. */
  lemma {:induction false} PushAllNewest(log: seq<LogEntry>, events: seq<LogEntry>)
    requires |events| > 0
    ensures |PushAll(log, events)| > 0 && PushAll(log, events)[0] == events[|events| - 1]
  {
    PushCappedShape(PushAll(log, events[..|events| - 1]), events[|events| - 1]);
  }

  /** `m` holds `log`, encoded, under `backup_logs`, and the log is within its cap. */
  ghost predicate Stores(m: map<string, string>, log: seq<LogEntry>)
  {
    |log| <= LogCapacity && LogText(m) == EncodeLog(log)
  }

  /** getLogs returns the log a store holds. */
  lemma {:induction false} StoresRead(m: map<string, string>, log: seq<LogEntry>)
    requires Stores(m, log)
    ensures GetLogs(m) == Some(log) && LogWellFormed(m)
  {
    LogRoundTrip(log);
  }

  /** Writing the pushed log back keeps every other key, and the store then holds the pushed log. */
  lemma {:induction false} StoresWrite(m: map<string, string>, log: seq<LogEntry>, e: LogEntry)
    requires Stores(m, log)
    ensures Stores(m[KeyBackupLogs := EncodeLog(PushCapped(log, e))], PushCapped(log, e))
    ensures SameExceptLogs(m[KeyBackupLogs := EncodeLog(PushCapped(log, e))], m)
  {
    PushCappedShape(log, e);
  }

  /** On a store that holds `log`, logBackupEvent writes the pushed log. */
  lemma {:induction false} StoresWriteEvent(m: map<string, string>, log: seq<LogEntry>, e: LogEntry)
    requires Stores(m, log)
    ensures GetLogs(m).Some? && WriteEvent(m, e) == m[KeyBackupLogs := EncodeLog(PushCapped(log, e))]
  {
    StoresRead(m, log);
  }

  // ---------------------------------------------------------------------
  // The stored log as a list of entry texts
  // ---------------------------------------------------------------------

  /** Texts joined with commas, as json_encode separates list items. */
  function JoinTexts(ts: seq<string>): string
    decreases |ts|
  {
    if |ts| == 0 then "" else if |ts| == 1 then ts[0] else ts[0] + "," + JoinTexts(ts[1..])
  }

  /** A JSON list whose items have the texts `ts`, in order. */
  function ListText(ts: seq<string>): string
  {
    "[" + JoinTexts(ts) + "]"
  }

  /** The JSON text of each entry of the log, in order. */
  function EntryTexts(log: seq<LogEntry>): (ts: seq<string>)
    ensures |ts| == |log| && forall i :: 0 <= i < |log| ==> ts[i] == EncodeEntry(log[i])
  {
    seq(|log|, i requires 0 <= i < |log| => EncodeEntry(log[i]))
  }

  /**
   * `m` holds `log` as the list of the item texts `texts`, each the JSON
   * text of the entry at its index. The tie between an item text and its
   * entry is stated per entry encoding, so it comes into play only where
   * an entry's encoding is itself in view.
   */
  ghost predicate Holds(m: map<string, string>, texts: seq<string>, log: seq<LogEntry>)
  {
    && |log| <= LogCapacity && |texts| == |log|
    && LogText(m) == ListText(texts)
    && forall i {:trigger EncodeEntry(log[i])} :: 0 <= i < |log| ==> texts[i] == EncodeEntry(log[i])
  }

  /** Joining the entry texts is joining the encoded entries. */
  lemma {:induction false} JoinTextsEntries(texts: seq<string>, log: seq<LogEntry>)
    requires |texts| == |log|
    requires forall i {:trigger EncodeEntry(log[i])} :: 0 <= i < |log| ==> texts[i] == EncodeEntry(log[i])
    ensures JoinTexts(texts) == JoinEntries(log)
    decreases |log|
  {
    if |log| > 0 {
      assert texts[0] == EncodeEntry(log[0]);
    }
    if |log| > 1 {
      forall i | 0 <= i < |log| - 1
        ensures texts[1..][i] == EncodeEntry(log[1..][i])
      {
        assert texts[i + 1] == EncodeEntry(log[i + 1]);
      }
      JoinTextsEntries(texts[1..], log[1..]);
    }
  }

  /** A store holding the log's entry texts holds the log. */
  lemma {:induction false} HoldsStores(m: map<string, string>, texts: seq<string>, log: seq<LogEntry>)
    requires Holds(m, texts, log)
    ensures Stores(m, log)
  {
    JoinTextsEntries(texts, log);
  }

  /** A store that holds the log holds its entry texts. */
  lemma {:induction false} StoresHolds(m: map<string, string>, log: seq<LogEntry>)
    requires Stores(m, log)
    ensures Holds(m, EntryTexts(log), log)
  {
    JoinTextsEntries(EntryTexts(log), log);
  }
}
