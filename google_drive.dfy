/**
 * The part of Google Drive the backup run touches: one folder named
 * "Plesk Backups" holding the uploaded archives. Listing it ordered by
 * createdTime gives the archives oldest first, so the folder is kept here as
 * a sequence in creation order; Drive hands out file ids in increasing order,
 * which makes a file's id stand for its creation time. What Drive answers to
 * each request (an error, or completing a resumable upload at a given chunk)
 * is an oracle fixed when the Drive is made.
 */
module GoogleDrive {
  import opened PhpRuntime

  datatype DriveFile = DriveFile(id: nat, name: string)

  /** Oldest first: ids, and so creation times, strictly increase along the list. */
  ghost predicate CreationOrdered(fs: seq<DriveFile>)
  {
    forall i, j :: 0 <= i < j < |fs| ==> fs[i].id < fs[j].id
  }

  /** The folder after deleting the file with this id. */
  function WithoutFile(fs: seq<DriveFile>, id: nat): seq<DriveFile>
    decreases |fs|
  {
    if |fs| == 0 then [] else (if fs[0].id == id then [] else [fs[0]]) + WithoutFile(fs[1..], id)
  }

  lemma {:induction false} WithoutFileFirst(fs: seq<DriveFile>)
    requires CreationOrdered(fs) && |fs| > 0
    ensures WithoutFile(fs, fs[0].id) == fs[1..]
  {
    WithoutFileAbsent(fs[1..], fs[0].id);
  }

  lemma {:induction false} WithoutFileAbsent(fs: seq<DriveFile>, id: nat)
    requires forall i :: 0 <= i < |fs| ==> fs[i].id != id
    ensures WithoutFile(fs, id) == fs
    decreases |fs|
  {
    if |fs| > 0 {
      WithoutFileAbsent(fs[1..], id);
      assert [fs[0]] + fs[1..] == fs;
    }
  }

  /**
   * How Drive answers the requests the extension makes, fixed for one
   * Drive: the id it gives the backup folder when it creates it, the error
   * it raises for a multipart upload of a file with a given name (if any),
   * whether it reports a resumable upload of a file complete on receiving
   * chunk i (counted from 0), and the error it raises when asked to delete
   * the file with a given id (if any).
   */
  datatype DriveAnswers = DriveAnswers(folderId: string, uploadError: string -> Option<string>,
                                       completesAt: (string, nat) -> bool, deleteError: nat -> Option<string>)

  /** The folder's listing, empty while the folder does not exist. */
  function Listing(folder: Option<seq<DriveFile>>): seq<DriveFile>
  {
    if folder.None? then [] else folder.value
  }

  class Drive {
    /** The archives in the backup folder, oldest first; None while the folder does not exist. */
    var folder: Option<seq<DriveFile>>
    var nextId: nat
    const answers: DriveAnswers

    ghost predicate Valid()
      reads this
    {
      folder.Some? ==> CreationOrdered(folder.value) && forall i :: 0 <= i < |folder.value| ==> folder.value[i].id < nextId
    }

    constructor (initial: Option<seq<DriveFile>>, next: nat, given: DriveAnswers)
      requires initial.Some? ==> CreationOrdered(initial.value) && forall i :: 0 <= i < |initial.value| ==> initial.value[i].id < next
      ensures Valid()
      ensures folder == initial && nextId == next
      ensures answers == given
    {
      folder, nextId, answers := initial, next, given;
    }

    /** getOrCreateFolder: the backup folder exists afterwards; `created` says whether it had to be made. */
    method GetOrCreateFolder() returns (created: bool)
      requires Valid()
      modifies this
      ensures Valid() && nextId == old(nextId)
      ensures created == old(folder).None?
      ensures folder == Some(Listing(old(folder)))
    {
      created := folder.None?;
      if created {
        folder := Some([]);
      }
    }

    /** `files->create` with uploadType multipart: the new file goes last in the folder. */
    method CreateMultipart(name: string) returns (r: Result<nat>)
      requires Valid() && folder.Some?
      modifies this
      ensures Valid()
      ensures answers.uploadError(name).Some? ==> r == Thrown(answers.uploadError(name).value) && folder == old(folder) && nextId == old(nextId)
      ensures answers.uploadError(name).None? ==>
                r == Ok(old(nextId)) && nextId == old(nextId) + 1 && folder == Some(old(folder).value + [DriveFile(old(nextId), name)])
    {
      match answers.uploadError(name)
      case Some(e) => r := Thrown(e);
      case None =>
        folder := Some(folder.value + [DriveFile(nextId, name)]);
        r := Ok(nextId);
        nextId := nextId + 1;
    }

    /** `$media->nextChunk($chunk)` for chunk i: false, or the new file once Drive reports completion. */
    method NextChunk(name: string, i: nat) returns (status: Option<nat>)
      requires Valid() && folder.Some?
      modifies this
      ensures Valid()
      ensures !answers.completesAt(name, i) ==> status.None? && folder == old(folder) && nextId == old(nextId)
      ensures answers.completesAt(name, i) ==>
                status == Some(old(nextId)) && nextId == old(nextId) + 1 && folder == Some(old(folder).value + [DriveFile(old(nextId), name)])
    {
      if answers.completesAt(name, i) {
        folder := Some(folder.value + [DriveFile(nextId, name)]);
        status := Some(nextId);
        nextId := nextId + 1;
      } else {
        status := None;
      }
    }

    /** `files->delete($fileId)`. */
    method Delete(id: nat) returns (err: Option<string>)
      requires Valid()
      modifies this
      ensures Valid() && nextId == old(nextId)
      ensures err == answers.deleteError(id)
      ensures folder == if err.Some? || old(folder).None? then old(folder) else Some(WithoutFile(old(folder).value, id))
    {
      err := answers.deleteError(id);
      if err.None? && folder.Some? {
        WithoutFileSubset(folder.value, id);
        WithoutFileOrdered(folder.value, id);
        folder := Some(WithoutFile(folder.value, id));
      }
    }
  }

  /** Deleting keeps only files that were in the folder. */
  lemma {:induction false} WithoutFileSubset(fs: seq<DriveFile>, id: nat)
    ensures forall i :: 0 <= i < |WithoutFile(fs, id)| ==> WithoutFile(fs, id)[i] in fs
    decreases |fs|
  {
    if |fs| > 0 {
      WithoutFileSubset(fs[1..], id);
      var rest := WithoutFile(fs[1..], id);
      var head: seq<DriveFile> := if fs[0].id == id then [] else [fs[0]];
      forall i | 0 <= i < |head + rest| ensures (head + rest)[i] in fs {
        if i >= |head| {
          assert (head + rest)[i] == rest[i - |head|];
          assert rest[i - |head|] in fs[1..];
        }
      }
    }
  }

  /** Deleting keeps the folder oldest first. */
  lemma {:induction false} WithoutFileOrdered(fs: seq<DriveFile>, id: nat)
    requires CreationOrdered(fs)
    ensures CreationOrdered(WithoutFile(fs, id))
    decreases |fs|
  {
    if |fs| > 0 {
      assert CreationOrdered(fs[1..]);
      WithoutFileOrdered(fs[1..], id);
      var rest := WithoutFile(fs[1..], id);
      if fs[0].id != id {
        WithoutFileSubset(fs[1..], id);
        forall j | 0 <= j < |rest| ensures fs[0].id < rest[j].id {
          var k :| 0 <= k < |fs[1..]| && fs[1..][k] == rest[j];
          assert fs[k + 1] == rest[j];
        }
        ConsOrdered(fs[0], rest);
      }
    }
  }

  /** A file older than every file of an ordered list can go in front of it. */
  lemma {:induction false} ConsOrdered(f: DriveFile, fs: seq<DriveFile>)
    requires CreationOrdered(fs) && forall j :: 0 <= j < |fs| ==> f.id < fs[j].id
    ensures CreationOrdered([f] + fs)
  {
    forall i, j | 0 <= i < j < |[f] + fs| ensures ([f] + fs)[i].id < ([f] + fs)[j].id {
      if i > 0 {
        assert ([f] + fs)[i] == fs[i - 1];
      }
      assert ([f] + fs)[j] == fs[j - 1];
    }
  }

  // ---------------------------------------------------------------------
  // The retention rule
  // ---------------------------------------------------------------------

  /** `$filesToDelete = count($files) - $retentionCount`, and nothing when that is not positive. */
  function DeleteCount(n: nat, keep: int): (d: nat)
    ensures d <= n || keep < 0
    ensures d == 0 <==> n <= keep
  {
    if n - keep <= 0 then 0 else n - keep
  }

  /** The folder listing after a retention pass that meets no error: the oldest files are gone. */
  function Retained(files: seq<DriveFile>, keep: int): seq<DriveFile>
    requires keep >= 0
  {
    files[DeleteCount(|files|, keep)..]
  }

  /**
   * The retention rule keeps the `keep` newest files (all of them when there
   * are no more), deletes exactly the max(0, n - keep) oldest, and never
   * deletes a file newer than one it keeps.
   */
  lemma {:induction false} RetentionKeepsNewest(files: seq<DriveFile>, keep: int)
    requires keep >= 0 && CreationOrdered(files)
    ensures |Retained(files, keep)| == if |files| <= keep then |files| else keep
    ensures |files| - |Retained(files, keep)| == if |files| <= keep then 0 else |files| - keep
    ensures files == files[..DeleteCount(|files|, keep)] + Retained(files, keep)
    ensures forall i, j :: 0 <= i < DeleteCount(|files|, keep) <= j < |files| ==> files[i].id < files[j].id
    ensures CreationOrdered(Retained(files, keep))
  {
  }

  /**
   * The end-to-end case: four earlier backups, one new upload and a
   * retention count of 3 delete the two oldest and keep the newest three,
   * the new archive among them.
   */
  lemma {:induction false} FourOldOneNewKeepThree(earlier: seq<DriveFile>, newest: DriveFile)
    requires |earlier| == 4 && CreationOrdered(earlier + [newest])
    ensures DeleteCount(5, 3) == 2
    ensures Retained(earlier + [newest], 3) == [earlier[2], earlier[3], newest]
  {
    var all := earlier + [newest];
    assert all[2..] == [earlier[2], earlier[3], newest];
  }

  /** The first of the `count` oldest files whose deletion Drive refuses, or `count` when it refuses none. */
  function FirstDeleteFailure(files: seq<DriveFile>, count: nat, deleteError: nat -> Option<string>): (m: nat)
    requires count <= |files|
    ensures m <= count
    ensures forall k :: 0 <= k < m ==> deleteError(files[k].id).None?
    ensures m < count ==> deleteError(files[m].id).Some?
    decreases count
  {
    if count == 0 then 0
    else
      var m := FirstDeleteFailure(files, count - 1, deleteError);
      if m < count - 1 then m
      else if deleteError(files[count - 1].id).Some? then count - 1
      else count
  }

  /**
   * applyRetentionPolicy on an existing folder: the error that stopped it,
   * if any, and the listing it leaves. A refused deletion throws, so the
   * files before it are gone and it and every later one remain.
   */
  function RetentionEffect(files: seq<DriveFile>, keep: int, deleteError: nat -> Option<string>): (r: (Option<string>, seq<DriveFile>))
    requires keep >= 0
  {
    var d := DeleteCount(|files|, keep);
    var m := FirstDeleteFailure(files, d, deleteError);
    if m < d then (deleteError(files[m].id), files[m..]) else (None, files[d..])
  }

  /** The refused deletion found by the loop is the first one. */
  lemma {:induction false} FirstDeleteFailureAt(files: seq<DriveFile>, count: nat, deleteError: nat -> Option<string>, i: nat)
    requires i <= count <= |files|
    requires forall k :: 0 <= k < i ==> deleteError(files[k].id).None?
    requires i < count ==> deleteError(files[i].id).Some?
    ensures FirstDeleteFailure(files, count, deleteError) == i
  {
  }

  /**
   * A deletion loop that stops at the i-th of the files to delete, or gets
   * through all of them, ends as the retention rule says.
   */
  lemma {:induction false} RetentionEffectAt(files: seq<DriveFile>, keep: int, deleteError: nat -> Option<string>, i: nat)
    requires keep >= 0 && i <= DeleteCount(|files|, keep)
    requires forall k :: 0 <= k < i ==> deleteError(files[k].id).None?
    requires i < DeleteCount(|files|, keep) ==> deleteError(files[i].id).Some?
    ensures RetentionEffect(files, keep, deleteError) ==
              (if i < DeleteCount(|files|, keep) then deleteError(files[i].id) else None, files[i..])
  {
    FirstDeleteFailureAt(files, DeleteCount(|files|, keep), deleteError, i);
  }

  /**
   * Whatever Drive refuses, the retention pass only ever removes a prefix
   * of the oldest files, never more than max(0, n - keep) of them, so the
   * `keep` newest always survive; with no refusal it leaves exactly the
   * retained suffix.
   */
  lemma {:induction false} RetentionOnlyDeletesOldest(files: seq<DriveFile>, keep: int, deleteError: nat -> Option<string>)
    requires keep >= 0
    ensures var (err, left) := RetentionEffect(files, keep, deleteError);
            && |files| - DeleteCount(|files|, keep) <= |left| <= |files|
            && left == files[|files| - |left|..]
            && (err.None? <==> left == Retained(files, keep))
            && (err.None? ==> forall k :: 0 <= k < DeleteCount(|files|, keep) ==> deleteError(files[k].id).None?)
            && (err.Some? ==> err == deleteError(files[|files| - |left|].id))
  {
  }

  // ---------------------------------------------------------------------
  // The listing applyRetentionPolicy reads
  // ---------------------------------------------------------------------

  /** The number of files one `files.list` call returns when the request sets no `pageSize`. */
  const DefaultPageSize: nat := 100

  /**
   * The files `$response->getFiles()` holds as written: only the first page
   * of the folder's listing, ordered by creation time; `nextPageToken` is
   * never followed.
   */
  function FirstPage(files: seq<DriveFile>): (page: seq<DriveFile>)
    ensures |page| == if |files| <= DefaultPageSize then |files| else DefaultPageSize
    ensures page == files[..|page|]
  {
    if |files| <= DefaultPageSize then files else files[..DefaultPageSize]
  }

  /**
   * applyRetentionPolicy as written: the retention rule applied to the
   * first page, with every file past it left where it is.
   */
  function RetentionEffectAsWritten(files: seq<DriveFile>, keep: int, deleteError: nat -> Option<string>): (Option<string>, seq<DriveFile>)
    requires keep >= 0
  {
    var page := FirstPage(files);
    var (err, left) := RetentionEffect(page, keep, deleteError);
    (err, left + files[|page|..])
  }

  /**
   * The defect as written: once the folder holds more than a page, a pass
   * that meets no refusal deletes only max(0, 100 - keep) files, so more
   * than `keep` remain; with a retention count of 100 nothing is deleted
   * at all and the folder keeps every file.
   */
  lemma {:induction false} PageCapStopsRetention(files: seq<DriveFile>, keep: int, deleteError: nat -> Option<string>)
    requires 0 <= keep <= DefaultPageSize < |files|
    requires forall k :: 0 <= k < |files| ==> deleteError(files[k].id).None?
    ensures var (err, left) := RetentionEffectAsWritten(files, keep, deleteError);
            err.None? && |left| == |files| - (DefaultPageSize - keep) && |left| > keep
    ensures keep == DefaultPageSize ==> RetentionEffectAsWritten(files, keep, deleteError) == (None, files)
  {
    var page := FirstPage(files);
    var d := DeleteCount(|page|, keep);
    forall k | 0 <= k < d ensures deleteError(page[k].id).None? {
      assert page[k] == files[k];
    }
    RetentionEffectAt(page, keep, deleteError, d);
    if keep == DefaultPageSize {
      assert page[d..] + files[|page|..] == files;
    }
  }

  /**
   * With the whole folder listed, every page followed, a pass that meets
   * no refusal leaves exactly the `keep` newest files, however many the
   * folder holds.
   */
  lemma {:induction false} FullListingKeepsExactly(files: seq<DriveFile>, keep: int, deleteError: nat -> Option<string>)
    requires 0 <= keep < |files|
    requires forall k :: 0 <= k < |files| ==> deleteError(files[k].id).None?
    ensures RetentionEffect(files, keep, deleteError) == (None, files[|files| - keep..])
    ensures |RetentionEffect(files, keep, deleteError).1| == keep
  {
    RetentionEffectAt(files, keep, deleteError, DeleteCount(|files|, keep));
  }
}
