/**
 * `Phi4ModelRepository` of the app package: the Phi-4 model lives in
 * `filesDir/phi4_mini_instruct_cpu_int4`; a download is the subfolder
 * synchronisation into that directory, and the model counts as available when
 * every manifest entry under the app's subfolder is there and non-empty.
 */
module Phi4ModelRepository {
  import opened Wrappers
  import opened Text
  import opened Sorting
  import opened LocalFiles
  import opened DownloadProgress
  import opened ModelDownloader

  const MODEL_DIR_NAME := "phi4_mini_instruct_cpu_int4"

  /** The repository, branch and subfolder `isModelAvailable` checks against. */
  const REPO_ID := "microsoft/Phi-4-mini-instruct-onnx"
  const BRANCH := "main"
  const SUBFOLDER := "cpu_and_mobile/cpu-int4-rtn-block-32-acc-level-4"

  /** `modelDir`, which both `getModelDirectory` and `getModelPath` return
      (`filesDir` being absolute, its absolute path is itself). */
  function ModelDirectory(filesDir: string): (r: string)
    ensures StartsWith(r, filesDir + "/")
  {
    Join(filesDir, MODEL_DIR_NAME)
  }

  /** The synchronisation `isModelAvailable` checks completeness of. */
  function AppTarget(filesDir: string): SyncTarget {
    SyncTarget(REPO_ID, BRANCH, SUBFOLDER, ModelDirectory(filesDir))
  }

  /** What `isModelAvailable` answers: the model directory exists, the
      listing succeeds, and every entry under the subfolder has a non-empty
      local file (same prefix filter and stripping as the download). */
  ghost predicate ModelAvailable(filesDir: string, listing: ManifestResponse, d: Disk) {
    && ModelDirectory(filesDir) in d.dirs
    && ListRepoFiles(listing).Success?
    && forall name :: name in FilterPrefix(ListRepoFiles(listing).value, SUBFOLDER + "/") ==>
         IsComplete(d, LocalPath(AppTarget(filesDir), name))
  }

  /** `isModelAvailable`: a missing directory answers false at once, a listing
      that throws answers false, and otherwise the first missing or empty
      local file answers false. */
  method IsModelAvailable(filesDir: string, listing: ManifestResponse, disk: Disk) returns (available: bool)
    ensures available == ModelAvailable(filesDir, listing, disk)
    ensures ModelDirectory(filesDir) !in disk.dirs ==> !available
    ensures ListRepoFiles(listing).Failure? ==> !available
  {
    var modelDir := ModelDirectory(filesDir);
    if modelDir !in disk.dirs {
      return false;
    }
    var allFiles := ListRepoFiles(listing);
    if allFiles.Failure? {
      return false;
    }
    var subfolderFiles := FilterPrefix(allFiles.value, SUBFOLDER + "/");
    for i := 0 to |subfolderFiles|
      invariant forall j :: 0 <= j < i ==>
        IsComplete(disk, Join(modelDir, RemovePrefix(subfolderFiles[j], SUBFOLDER + "/")))
    {
      var localFileName := RemovePrefix(subfolderFiles[i], SUBFOLDER + "/");
      var localFile := Join(modelDir, localFileName);
      if localFile !in disk.files || disk.files[localFile] == 0 {
        assert subfolderFiles[i] in subfolderFiles;
        return false;
      }
    }
    forall name | name in subfolderFiles
      ensures IsComplete(disk, LocalPath(AppTarget(filesDir), name))
    {
      var j :| 0 <= j < |subfolderFiles| && subfolderFiles[j] == name;
    }
    return true;
  }

  /** `downloadAllInSubfolderFlow`: the caller's repository, branch and
      subfolder, unchanged, synchronised into the model directory. */
  method DownloadAllInSubfolderFlow(repoId: string, branch: string, subfolder: string, filesDir: string,
                                    listing: ManifestResponse, disk: Disk, server: string -> FileResponse)
    returns (run: SyncResult)
    ensures run == SyncRun(listing, SyncTarget(repoId, branch, subfolder, ModelDirectory(filesDir)), disk, server)
  {
    run := DownloadSubfolderFlow(SyncTarget(repoId, branch, subfolder, ModelDirectory(filesDir)), listing, disk, server);
  }

  /** Extra local files are irrelevant: two disks that agree on the model
      directory and on every expected local file give the same answer. */
  lemma AvailabilityIgnoresOtherFiles(filesDir: string, listing: ManifestResponse, d: Disk, d': Disk)
    requires (ModelDirectory(filesDir) in d.dirs) == (ModelDirectory(filesDir) in d'.dirs)
    requires ListRepoFiles(listing).Success? ==>
      forall name :: name in FilterPrefix(ListRepoFiles(listing).value, SUBFOLDER + "/") ==>
        SameFile(d, d', LocalPath(AppTarget(filesDir), name))
    ensures ModelAvailable(filesDir, listing, d) == ModelAvailable(filesDir, listing, d')
  {
  }

  /** A listing with nothing under the subfolder makes an existing model
      directory vacuously complete. */
  lemma EmptySubfolderIsAvailable(filesDir: string, listing: ManifestResponse, d: Disk)
    requires ModelDirectory(filesDir) in d.dirs
    requires ListRepoFiles(listing).Success?
    requires FilterPrefix(ListRepoFiles(listing).value, SUBFOLDER + "/") == []
    ensures ModelAvailable(filesDir, listing, d)
  {
  }

  /** The availability check and the download agree on filter and strip: after
      the app's download ends in `Success` over a manifest, with no empty file
      bodies, the check over the same manifest answers true. */
  lemma DownloadSuccessMakesAvailable(filesDir: string, listing: ManifestResponse, disk: Disk,
                                      server: string -> FileResponse)
    requires NonEmptyBodies(server)
    requires Last(SyncRun(listing, AppTarget(filesDir), disk, server).events) == Progress.Success
    ensures ModelAvailable(filesDir, listing, SyncRun(listing, AppTarget(filesDir), disk, server).disk)
  {
    var t := AppTarget(filesDir);
    SyncRunSuccessLeavesTargets(listing, t, disk, server);
    var all := ListRepoFiles(listing).value;
    forall name | name in FilterPrefix(all, SUBFOLDER + "/")
      ensures name in Targets(all, t)
    {
      assert name in multiset(FilterPrefix(all, Prefix(t)));
    }
  }

  /** Conversely, once the model is available, the app's download requests
      nothing and leaves the disk as it is, emitting the full progress
      envelope. */
  lemma AvailableDownloadIsIdle(filesDir: string, listing: ManifestResponse, disk: Disk,
                                server: string -> FileResponse)
    requires ModelAvailable(filesDir, listing, disk)
    ensures SyncRun(listing, AppTarget(filesDir), disk, server).fetched == []
    ensures SyncRun(listing, AppTarget(filesDir), disk, server).disk == disk
    ensures Last(SyncRun(listing, AppTarget(filesDir), disk, server).events) == Progress.Success
  {
    var t := AppTarget(filesDir);
    var all := ListRepoFiles(listing).value;
    forall name | name in Targets(all, t)
      ensures IsComplete(disk, LocalPath(t, name))
    {
      assert name in multiset(Targets(all, t));
    }
    PopulatedDestinationFetchesNothing(listing, t, disk, server);
    assert MkDirs(disk, t.destDir) == disk;
  }
}
