/**
 * The control flow of runBackup that both copies share, as a function of
 * what the host and Drive answer: directories are archived and uploaded in
 * order, the first failure ends the run without the retention pass, and a
 * run that gets through every directory applies the retention policy. The
 * top-level copy sends archives over 10 MiB through a resumable upload in
 * 1 MiB chunks; the nested copy always uses one multipart request.
 */
module BackupRun {
  import opened PhpRuntime
  import opened GoogleDrive

  const MiB: nat := 1024 * 1024
  /** `10 * 1024 * 1024`: archives strictly larger than this take the chunked path. */
  const ChunkedThreshold: nat := 10 * MiB

  predicate UsesChunkedUpload(size: nat)
  {
    size > ChunkedThreshold
  }

  /** An archive of exactly 10 MiB goes in one multipart request; one byte more is sent in chunks. */
  lemma {:induction false} ChunkedThresholdBoundary()
    ensures !UsesChunkedUpload(10485760) && UsesChunkedUpload(10485761)
    ensures forall size: nat :: UsesChunkedUpload(size) <==> size >= 10485761
  {
  }

  /**
   * How many times the chunk loop reads when Drive never reports completion:
   * feof() turns true only once a read has come back short, so a file of n
   * whole MiB takes n full reads and one empty one.
   */
  function ChunkReads(size: nat): nat
  {
    size / MiB + 1
  }

  /** The length of the i-th `fread($handle, 1024 * 1024)`. */
  function ChunkLength(size: nat, i: nat): nat
  {
    if i * MiB >= size then 0 else if size - i * MiB < MiB then size - i * MiB else MiB
  }

  /**
   * The reads cover the file exactly: every read before the last is a full
   * MiB, the last one is short (possibly empty), and they add up to the size.
   */
  lemma {:induction false} ChunkReadsCoverFile(size: nat)
    ensures forall i :: 0 <= i < ChunkReads(size) - 1 ==> ChunkLength(size, i) == MiB
    ensures ChunkLength(size, ChunkReads(size) - 1) < MiB
    ensures (ChunkReads(size) - 1) * MiB + ChunkLength(size, ChunkReads(size) - 1) == size
  {
    var n := ChunkReads(size) - 1;
    assert n == size / MiB;
    assert n * MiB <= size < n * MiB + MiB;
    forall i | 0 <= i < n ensures ChunkLength(size, i) == MiB {
      assert i + 1 <= n;
      assert (i + 1) * MiB <= n * MiB;
    }
  }

  /** The first chunk, from `from` on and before `reads`, at which Drive reports the upload complete. */
  function FirstCompletion(name: string, from: nat, limit: nat, completesAt: (string, nat) -> bool): (r: Option<nat>)
    ensures r.Some? ==> from <= r.value < limit && completesAt(name, r.value)
                        && forall k :: from <= k < r.value ==> !completesAt(name, k)
    ensures r.None? ==> forall k :: from <= k < limit ==> !completesAt(name, k)
    decreases limit - from
  {
    if from >= limit then None
    else if completesAt(name, from) then Some(from)
    else FirstCompletion(name, from + 1, limit, completesAt)
  }

  const ErrLargeUpload: string := "Failed to upload large file: "

  /**
   * Why uploadFileToDrive throws for an archive, if it does: the chunked
   * path (top-level copy only) throws when EOF comes before Drive reports
   * completion, the multipart path throws Drive's own error.
   */
  function UploadFailure(name: string, size: nat, chunked: bool, drive: DriveAnswers): (e: Option<string>)
    ensures chunked && UsesChunkedUpload(size) ==>
              (e.Some? <==> forall k :: 0 <= k < ChunkReads(size) ==> !drive.completesAt(name, k))
    ensures chunked && UsesChunkedUpload(size) && e.Some? ==> e.value == ErrLargeUpload + name
    ensures !(chunked && UsesChunkedUpload(size)) ==> e == drive.uploadError(name)
  {
    if chunked && UsesChunkedUpload(size) then
      if FirstCompletion(name, 0, ChunkReads(size), drive.completesAt).None? then Some(ErrLargeUpload + name) else None
    else drive.uploadError(name)
  }

  /** What the host does when archiving a directory: tar's exit code and the archive's size. */
  datatype Archiver = Archiver(exitCode: string -> int, archiveSize: string -> nat)

  /** `basename($dir) . ".tar.gz"`: the name the archive is uploaded under. */
  function ArchiveName(dir: string): string
  {
    Basename(dir) + ".tar.gz"
  }

  /** `"{$tempDir}/" . basename($dir) . ".tar.gz"`: where tar writes the archive. */
  function ArchivePath(tempDir: string, dir: string): string
  {
    tempDir + "/" + ArchiveName(dir)
  }

  /** The body of `escapeshellarg` on POSIX: each single quote becomes `'\''`. */
  function QuoteInner(s: string): (r: string)
    ensures |r| >= |s|
  {
    if |s| == 0 then ""
    else (if s[0] == '\'' then "'\\''" else [s[0]]) + QuoteInner(s[1..])
  }

  /** `escapeshellarg($s)`: the argument wrapped in single quotes. */
  function ShellQuote(s: string): (r: string)
    ensures |r| >= |s| + 2 && r[0] == '\'' && r[|r| - 1] == '\''
  {
    "'" + QuoteInner(s) + "'"
  }

  /** A string without single quotes passes through the quoting body unchanged. */
  lemma {:induction false} QuoteInnerPlain(s: string)
    requires forall i :: 0 <= i < |s| ==> s[i] != '\''
    ensures QuoteInner(s) == s
  {
    if |s| > 0 {
      QuoteInnerPlain(s[1..]);
      assert s == [s[0]] + s[1..];
    }
  }

  /**
   * The files on the local disk, by path, with their sizes: `filesize` of a
   * missing path is false, and `false > 10 * 1024 * 1024` is false.
   */
  predicate SizeAboveThreshold(disk: map<string, nat>, path: string)
  {
    path in disk && UsesChunkedUpload(disk[path])
  }

  /** The bytes `file_get_contents` hands to the multipart upload: false, sent as an empty body, when the path is missing. */
  function UploadedBytes(disk: map<string, nat>, path: string): nat
  {
    if path in disk then disk[path] else 0
  }

  /** `unlink($path)`: a missing path leaves the disk as it was. */
  function Unlink(disk: map<string, nat>, path: string): (d: map<string, nat>)
    ensures path !in d && forall p :: p in disk && p != path ==> p in d && d[p] == disk[p]
  {
    disk - {path}
  }

  /** The archive's name, with or without a quote after it, holds no slash. */
  lemma {:induction false} ArchiveNameIsComponent(dir: string)
    ensures forall i :: 0 <= i < |ArchiveName(dir)| ==> ArchiveName(dir)[i] != '/'
    ensures forall i :: 0 <= i < |ArchiveName(dir) + "'"| ==> (ArchiveName(dir) + "'")[i] != '/'
  {
    var name := ArchiveName(dir);
    forall i | 0 <= i < |name + "'"| ensures (name + "'")[i] != '/' {
      if i < |Basename(dir)| {
        assert (name + "'")[i] == Basename(dir)[i];
      }
    }
  }

  /** The archive path holds no single quote when neither the temporary directory nor the basename does. */
  lemma {:induction false} ArchivePathUnquoted(tempDir: string, dir: string)
    requires forall i :: 0 <= i < |tempDir| ==> tempDir[i] != '\''
    requires forall i :: 0 <= i < |Basename(dir)| ==> Basename(dir)[i] != '\''
    ensures forall i :: 0 <= i < |ArchivePath(tempDir, dir)| ==> ArchivePath(tempDir, dir)[i] != '\''
  {
    var path := ArchivePath(tempDir, dir);
    var name := ArchiveName(dir);
    forall i | 0 <= i < |path| ensures path[i] != '\'' {
      if i > |tempDir| {
        assert path[i] == name[i - |tempDir| - 1];
        if i - |tempDir| - 1 < |Basename(dir)| {
          assert name[i - |tempDir| - 1] == Basename(dir)[i - |tempDir| - 1];
        }
      }
    }
  }

  /**
   * As written, the top-level runBackup reassigns `$tarFile` to its quoted
   * form before the upload and the unlink. The shell strips the quotes, so
   * tar writes the archive at the plain path, but `basename`, `filesize`,
   * `file_get_contents` and `unlink` then see a path with quotes in it: the
   * Drive file is named with a trailing quote, the chunked path is never
   * taken, the body sent is empty and the archive stays on disk.
   */
  lemma {:induction false} QuotedPathMisses(tempDir: string, dir: string, size: nat)
    requires forall i :: 0 <= i < |tempDir| ==> tempDir[i] != '\''
    requires forall i :: 0 <= i < |Basename(dir)| ==> Basename(dir)[i] != '\''
    ensures var path := ArchivePath(tempDir, dir);
            && ShellQuote(path) != path
            && Basename(ShellQuote(path)) == ArchiveName(dir) + "'"
            && !SizeAboveThreshold(map[path := size], ShellQuote(path))
            && UploadedBytes(map[path := size], ShellQuote(path)) == 0
            && path in Unlink(map[path := size], ShellQuote(path))
  {
    var path := ArchivePath(tempDir, dir);
    var name := ArchiveName(dir);
    ArchivePathUnquoted(tempDir, dir);
    QuoteInnerPlain(path);
    assert ShellQuote(path) == ("'" + tempDir) + "/" + (name + "'") + "";
    ArchiveNameIsComponent(dir);
    BasenameLastComponent("'" + tempDir, name + "'", "");
  }

  /**
   * With the plain path, as intended, the upload is named after the
   * directory, goes by the chunked path exactly when the archive is over
   * 10 MiB, sends the archive's bytes, and the archive is removed.
   */
  lemma {:induction false} UnquotedPathUploads(tempDir: string, dir: string, size: nat)
    ensures var path := ArchivePath(tempDir, dir);
            && Basename(path) == ArchiveName(dir)
            && (SizeAboveThreshold(map[path := size], path) <==> UsesChunkedUpload(size))
            && UploadedBytes(map[path := size], path) == size
            && path !in Unlink(map[path := size], path)
  {
    var name := ArchiveName(dir);
    assert ArchivePath(tempDir, dir) == tempDir + "/" + name + "";
    ArchiveNameIsComponent(dir);
    BasenameLastComponent(tempDir, name, "");
  }

  const ErrArchivePrefix: string := "Failed to create backup archive for "

  /** Why the loop body throws for a directory, if it does. */
  function DirFailure(dir: string, ar: Archiver, chunked: bool, drive: DriveAnswers): (e: Option<string>)
    ensures ar.exitCode(dir) != 0 ==> e == Some(ErrArchivePrefix + dir)
    ensures ar.exitCode(dir) == 0 ==> e == UploadFailure(ArchiveName(dir), ar.archiveSize(dir), chunked, drive)
  {
    if ar.exitCode(dir) != 0 then Some(ErrArchivePrefix + dir)
    else UploadFailure(ArchiveName(dir), ar.archiveSize(dir), chunked, drive)
  }

  /** The index of the first directory whose archiving or upload fails, or |dirs| when none does. */
  function FirstFailing(dirs: seq<string>, ar: Archiver, chunked: bool, drive: DriveAnswers): (j: nat)
    ensures j <= |dirs|
    ensures forall k :: 0 <= k < j ==> DirFailure(dirs[k], ar, chunked, drive).None?
    ensures j < |dirs| ==> DirFailure(dirs[j], ar, chunked, drive).Some?
    decreases |dirs|
  {
    if |dirs| == 0 then 0
    else if DirFailure(dirs[0], ar, chunked, drive).Some? then 0
    else 1 + FirstFailing(dirs[1..], ar, chunked, drive)
  }

  /** A directory before the first failing one that does not fail moves the bound on the first failure past it. */
  lemma {:induction false} FirstFailingPast(dirs: seq<string>, ar: Archiver, chunked: bool, drive: DriveAnswers, i: nat)
    requires i < |dirs| && i <= FirstFailing(dirs, ar, chunked, drive)
    requires DirFailure(dirs[i], ar, chunked, drive).None?
    ensures i + 1 <= FirstFailing(dirs, ar, chunked, drive)
  {
  }

  /** A directory before the first failing one that fails is the first failing one. */
  lemma {:induction false} FirstFailingHere(dirs: seq<string>, ar: Archiver, chunked: bool, drive: DriveAnswers, i: nat)
    requires i <= |dirs| && i <= FirstFailing(dirs, ar, chunked, drive)
    requires i < |dirs| ==> DirFailure(dirs[i], ar, chunked, drive).Some?
    ensures FirstFailing(dirs, ar, chunked, drive) == i
  {
  }

  /** The archives uploaded for these directories, with the ids Drive hands out from `first` on. */
  function NewFiles(dirs: seq<string>, first: nat): (fs: seq<DriveFile>)
    ensures |fs| == |dirs|
    ensures forall k :: 0 <= k < |dirs| ==> fs[k] == DriveFile(first + k, ArchiveName(dirs[k]))
  {
    seq(|dirs|, k requires 0 <= k < |dirs| => DriveFile(first + k, ArchiveName(dirs[k])))
  }

  /** Uploads go after everything already in the folder, so the listing stays oldest first. */
  lemma {:induction false} NewFilesKeepOrder(before: seq<DriveFile>, dirs: seq<string>, first: nat)
    requires CreationOrdered(before) && forall i :: 0 <= i < |before| ==> before[i].id < first
    ensures CreationOrdered(before + NewFiles(dirs, first))
    ensures forall i :: 0 <= i < |before + NewFiles(dirs, first)| ==> (before + NewFiles(dirs, first))[i].id < first + |dirs|
  {
  }

  /** The folder once the first i directories have been archived and uploaded: untouched when i is 0. */
  function FolderAfter(folder: Option<seq<DriveFile>>, first: nat, dirs: seq<string>, i: nat): Option<seq<DriveFile>>
    requires i <= |dirs|
  {
    if i == 0 then folder else Some(Listing(folder) + NewFiles(dirs[..i], first))
  }

  /** One more directory uploaded: its archive goes after the earlier ones, with the next id. */
  lemma {:induction false} FolderAfterStep(folder: Option<seq<DriveFile>>, first: nat, dirs: seq<string>, i: nat)
    requires i < |dirs|
    ensures FolderAfter(folder, first, dirs, i + 1) == Some(Listing(FolderAfter(folder, first, dirs, i)) + [DriveFile(first + i, ArchiveName(dirs[i]))])
  {
    var added := DriveFile(first + i, ArchiveName(dirs[i]));
    var next := NewFiles(dirs[..i + 1], first);
    assert next == NewFiles(dirs[..i], first) + [added];
    if i == 0 {
      assert next == [added];
    } else {
      assert Listing(FolderAfter(folder, first, dirs, i)) == Listing(folder) + NewFiles(dirs[..i], first);
      assert Listing(folder) + next == Listing(folder) + NewFiles(dirs[..i], first) + [added];
    }
  }

  /** How runBackup ends: `{success: true}` or `{success: false, error}`. */
  datatype RunResult = Completed | Failed(error: string)

  const ErrNotConnected: string := "Not connected to Google Drive"

  /** Whether the run reached uploadFileToDrive at least once (which creates the folder). */
  predicate UploadReached(dirs: seq<string>, j: nat, ar: Archiver)
  {
    j > 0 || (j < |dirs| && ar.exitCode(dirs[j]) == 0)
  }

  /** The folder the archive loop leaves: one new archive per directory before the first failing one. */
  function AfterArchiving(folder: Option<seq<DriveFile>>, first: nat, dirs: seq<string>,
                          ar: Archiver, chunked: bool, drive: DriveAnswers): Option<seq<DriveFile>>
  {
    var j := FirstFailing(dirs, ar, chunked, drive);
    if UploadReached(dirs, j, ar) then Some(Listing(folder) + NewFiles(dirs[..j], first)) else folder
  }

  /**
   * The loop stops at the first failing directory i: the folder is the one
   * the earlier directories left, created by the failing upload when tar
   * succeeded for that directory.
   */
  lemma {:induction false} AfterArchivingAt(folder: Option<seq<DriveFile>>, first: nat, dirs: seq<string>,
                         ar: Archiver, chunked: bool, drive: DriveAnswers, i: nat)
    requires i <= |dirs| && FirstFailing(dirs, ar, chunked, drive) == i
    ensures AfterArchiving(folder, first, dirs, ar, chunked, drive) ==
              if i < |dirs| && ar.exitCode(dirs[i]) == 0 then Some(Listing(FolderAfter(folder, first, dirs, i)))
              else FolderAfter(folder, first, dirs, i)
  {
    if i == 0 {
      assert NewFiles(dirs[..0], first) == [];
      assert Listing(folder) + [] == Listing(folder);
    }
  }

  /**
   * The archive loop and the retention pass of an authenticated run: the
   * result and the folder they leave, from the folder and next id before the
   * run, the stored directories and retention count, and the answers.
   */
  function RunEffect(folder: Option<seq<DriveFile>>, first: nat, dirs: seq<string>, keep: int,
                     ar: Archiver, chunked: bool, drive: DriveAnswers): (r: (RunResult, Option<seq<DriveFile>>))
    requires keep >= 0
  {
    var j := FirstFailing(dirs, ar, chunked, drive);
    var after := AfterArchiving(folder, first, dirs, ar, chunked, drive);
    if j < |dirs| then (Failed(DirFailure(dirs[j], ar, chunked, drive).value), after)
    else if after.None? then (Completed, None)
    else
      var (err, left) := RetentionEffect(after.value, keep, drive.deleteError);
      if err.Some? then (Failed(err.value), Some(left)) else (Completed, Some(left))
  }

  /**
   * The first failing directory ends the run: its error is the run's, the
   * directories after it are never archived or uploaded, and no retention
   * pass runs, so everything in the folder before the run is still there.
   */
  lemma {:induction false} FirstFailureSkipsRest(folder: Option<seq<DriveFile>>, first: nat, dirs: seq<string>, keep: int,
                                                 ar: Archiver, chunked: bool, drive: DriveAnswers, j: nat)
    requires keep >= 0 && j < |dirs|
    requires forall k :: 0 <= k < j ==> DirFailure(dirs[k], ar, chunked, drive).None?
    requires DirFailure(dirs[j], ar, chunked, drive).Some?
    ensures RunEffect(folder, first, dirs, keep, ar, chunked, drive).0 == Failed(DirFailure(dirs[j], ar, chunked, drive).value)
    ensures ar.exitCode(dirs[j]) != 0 ==> RunEffect(folder, first, dirs, keep, ar, chunked, drive).0 == Failed(ErrArchivePrefix + dirs[j])
    ensures Listing(RunEffect(folder, first, dirs, keep, ar, chunked, drive).1) == Listing(folder) + NewFiles(dirs[..j], first)
    ensures j == 0 && ar.exitCode(dirs[0]) != 0 ==> RunEffect(folder, first, dirs, keep, ar, chunked, drive).1 == folder
  {
    var f := FirstFailing(dirs, ar, chunked, drive);
    assert f == j;
    if !UploadReached(dirs, j, ar) {
      assert dirs[..j] == [];
    }
  }

  /**
   * A run in which every directory succeeds uploads one archive per
   * directory, in order, and then hands the whole listing to the retention
   * pass; with no refused deletion it ends Completed holding the retained
   * newest files.
   */
  lemma {:induction false} AllDirectoriesThenRetention(folder: Option<seq<DriveFile>>, first: nat, dirs: seq<string>, keep: int,
                                                       ar: Archiver, chunked: bool, drive: DriveAnswers)
    requires keep >= 0 && |dirs| > 0
    requires forall k :: 0 <= k < |dirs| ==> DirFailure(dirs[k], ar, chunked, drive).None?
    requires forall f :: f in Listing(folder) + NewFiles(dirs, first) ==> drive.deleteError(f.id).None?
    ensures RunEffect(folder, first, dirs, keep, ar, chunked, drive) ==
              (Completed, Some(Retained(Listing(folder) + NewFiles(dirs, first), keep)))
  {
    var j := FirstFailing(dirs, ar, chunked, drive);
    assert j == |dirs|;
    assert dirs[..j] == dirs;
    var files := Listing(folder) + NewFiles(dirs, first);
    var d := DeleteCount(|files|, keep);
    assert forall k :: 0 <= k < |files| ==> files[k] in files;
  }
}
