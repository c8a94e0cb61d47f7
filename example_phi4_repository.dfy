/**
 * `Phi4ModelRepository` of the example package: the model directory
 * `filesDir/phi4_mini_instruct_cpu_int4` holds the fixed list of required
 * files; availability is "all present and non-empty", and a download fetches,
 * in list order, each file that is missing or empty, until one transfer throws.
 *
 * `fetch(url)` is what `ModelDownloader.downloadFile(url, localFile)` does to
 * the local file: it writes the whole body, or it throws, possibly after
 * having created and partly written the file.
 */
module ExamplePhi4Repository {
  import opened Wrappers
  import opened Text
  import opened Sorting
  import opened LocalFiles
  import opened Phi4MiniFiles

  const MODEL_DIR_NAME := "phi4_mini_instruct_cpu_int4"

  /** `modelDir`, which `getModelDirectory` returns. */
  function ModelDir(filesDir: string): (r: string)
    ensures StartsWith(r, filesDir + "/")
  {
    Join(filesDir, MODEL_DIR_NAME)
  }

  /** `getFilePath(fileName)`: the file of that name directly inside the model
      directory. */
  function GetFilePath(filesDir: string, fileName: string): (r: string)
    ensures StartsWith(r, ModelDir(filesDir) + "/")
    ensures RemovePrefix(r, ModelDir(filesDir) + "/") == fileName
  {
    Join(ModelDir(filesDir), fileName)
  }

  /** `isModelAvailable`: the directory exists and every required file in it
      exists with a positive length. */
  predicate IsModelAvailable(filesDir: string, d: Disk) {
    && ModelDir(filesDir) in d.dirs
    && forall j :: 0 <= j < |REQUIRED_FILES| ==> IsComplete(d, GetFilePath(filesDir, REQUIRED_FILES[j]))
  }

  // ---------------------------------------------------------------- download

  /** How `downloadModelFiles` ended: normally, or with the exception of a
      transfer (and its message, if any) propagating to the caller. */
  datatype Outcome = Done | Threw(message: Option<string>)

  /** The disk afterwards, the URLs requested in order, and how it ended. */
  datatype DownloadResult = DownloadResult(disk: Disk, fetched: seq<string>, outcome: Outcome)

  /** The `forEach` from name k on: a missing or empty local file is fetched,
      and the first transfer that throws ends the loop. */
  function FetchMissing(names: seq<string>, k: nat, dir: string, d: Disk,
                        fetch: string -> FetchResult): (r: DownloadResult)
    requires k <= |names|
    decreases |names| - k
  {
    if k == |names| then DownloadResult(d, [], Done)
    else
      var local := Join(dir, names[k]);
      if !NeedsDownload(d, local) then FetchMissing(names, k + 1, dir, d, fetch)
      else
        var url := GetDownloadUrl(names[k]);
        var res := fetch(url);
        if res.FetchFailed? then DownloadResult(Store(d, local, res), [url], Threw(res.message))
        else
          var rest := FetchMissing(names, k + 1, dir, Store(d, local, res), fetch);
          rest.(fetched := [url] + rest.fetched)
  }

  /** `downloadModelFiles` as a function of the disk and the network. */
  function DownloadModelFilesRun(filesDir: string, disk: Disk, fetch: string -> FetchResult): DownloadResult {
    FetchMissing(REQUIRED_FILES, 0, ModelDir(filesDir), MkDirs(disk, ModelDir(filesDir)), fetch)
  }

  /** `downloadModelFiles`: create the model directory if it is missing, then
      walk the required files. */
  method DownloadModelFiles(filesDir: string, disk: Disk, fetch: string -> FetchResult)
    returns (r: DownloadResult)
    ensures r == DownloadModelFilesRun(filesDir, disk, fetch)
  {
    var modelDir := ModelDir(filesDir);
    var d := disk;
    if modelDir !in d.dirs {
      d := MkDirs(d, modelDir);
    }
    assert d == MkDirs(disk, modelDir);
    r := FetchEach(REQUIRED_FILES, modelDir, d, fetch);
  }

  /** The `forEach` over the file names: fetch each missing or empty file,
      and let the first transfer that throws end the loop. */
  method FetchEach(names: seq<string>, modelDir: string, disk: Disk, fetch: string -> FetchResult)
    returns (r: DownloadResult)
    ensures r == FetchMissing(names, 0, modelDir, disk, fetch)
  {
    var d := disk;
    var fetched: seq<string> := [];
    ghost var whole := FetchMissing(names, 0, modelDir, d, fetch);
    var i := 0;
    while i < |names|
      invariant 0 <= i <= |names|
      invariant whole == FetchMissing(names, i, modelDir, d, fetch)
                           .(fetched := fetched + FetchMissing(names, i, modelDir, d, fetch).fetched)
    {
      ghost var d0 := d;
      ghost var fetched0 := fetched;
      var fileName := names[i];
      var localFile := Join(modelDir, fileName);
      if localFile !in d.files || d.files[localFile] == 0 {
        var url := GetDownloadUrl(fileName);
        var res := fetch(url);
        d := Store(d, localFile, res);
        fetched := fetched + [url];
        if res.FetchFailed? {
          assert FetchMissing(names, i, modelDir, d0, fetch) == DownloadResult(d, [url], Threw(res.message));
          r := DownloadResult(d, fetched, Threw(res.message));
          return;
        }
        ghost var rest := FetchMissing(names, i + 1, modelDir, d, fetch);
        assert FetchMissing(names, i, modelDir, d0, fetch) == rest.(fetched := [url] + rest.fetched);
        assert fetched0 + ([url] + rest.fetched) == fetched + rest.fetched;
      } else {
        assert FetchMissing(names, i, modelDir, d0, fetch) == FetchMissing(names, i + 1, modelDir, d, fetch);
      }
      i := i + 1;
    }
    assert fetched + [] == fetched;
    r := DownloadResult(d, fetched, Done);
  }

  // ---------------------------------------------------------------- properties

  /** The URLs of names[k..] whose local file is missing or empty on `d`, in
      list order. */
  function NeedingDownload(names: seq<string>, k: nat, dir: string, d: Disk): (r: seq<string>)
    requires k <= |names|
    decreases |names| - k
    ensures |r| <= |names| - k
  {
    if k == |names| then []
    else (if NeedsDownload(d, Join(dir, names[k])) then [GetDownloadUrl(names[k])] else [])
         + NeedingDownload(names, k + 1, dir, d)
  }

  predicate DistinctFrom(names: seq<string>, k: nat) {
    forall i, j :: k <= i < j < |names| ==> names[i] != names[j]
  }

  /** Writing a file that is none of names[k..]'s leaves their needs alone. */
  lemma {:induction false} NeedingDownloadFrame(names: seq<string>, k: nat, dir: string, d: Disk,
                                               p: string, res: FetchResult)
    requires k <= |names|
    requires forall j :: k <= j < |names| ==> Join(dir, names[j]) != p
    ensures NeedingDownload(names, k, dir, Store(d, p, res)) == NeedingDownload(names, k, dir, d)
    decreases |names| - k
  {
    if k < |names| {
      NeedingDownloadFrame(names, k + 1, dir, d, p, res);
    }
  }

  /** No request in `urls` threw. */
  ghost predicate AllFetched(fetch: string -> FetchResult, urls: seq<string>) {
    forall j :: 0 <= j < |urls| ==> fetch(urls[j]).Fetched?
  }

  /** What a run says about its requests, given the URLs `need` that needed
      fetching: they are, in order, all of `need` if the run ended normally,
      and otherwise a prefix of it up to and including the one that threw
      (the rest are skipped). */
  ghost predicate Reports(fetch: string -> FetchResult, r: DownloadResult, need: seq<string>) {
    && (r.outcome.Done? ==> r.fetched == need && AllFetched(fetch, r.fetched))
    && (r.outcome.Threw? ==>
          && r.fetched != []
          && r.fetched <= need
          && AllFetched(fetch, r.fetched[..|r.fetched| - 1])
          && fetch(r.fetched[|r.fetched| - 1]).FetchFailed?
          && r.outcome.message == fetch(r.fetched[|r.fetched| - 1]).message)
  }

  /** The run's requests are the missing or empty files' URLs of names[k..]. */
  ghost predicate Requests(names: seq<string>, k: nat, dir: string, d: Disk,
                           fetch: string -> FetchResult, r: DownloadResult)
    requires k <= |names|
  {
    Reports(fetch, r, NeedingDownload(names, k, dir, d))
  }

  /** A successful request in front of a run's requests extends what it reports. */
  lemma ReportsCons(fetch: string -> FetchResult, url: string, rest: DownloadResult, need: seq<string>)
    requires fetch(url).Fetched?
    requires Reports(fetch, rest, need)
    ensures Reports(fetch, rest.(fetched := [url] + rest.fetched), [url] + need)
  {
    var f := [url] + rest.fetched;
    if rest.outcome.Done? {
      forall j | 0 <= j < |f| ensures fetch(f[j]).Fetched? {
        if j > 0 { assert f[j] == rest.fetched[j - 1]; }
      }
    } else {
      assert f[..|f| - 1] == [url] + rest.fetched[..|rest.fetched| - 1];
      forall j | 0 <= j < |f| - 1 ensures fetch(f[j]).Fetched? {
        if j > 0 { assert f[j] == rest.fetched[j - 1]; }
      }
    }
  }

  lemma {:induction false} FetchMissingRequests(names: seq<string>, k: nat, dir: string, d: Disk,
                                               fetch: string -> FetchResult)
    requires k <= |names|
    requires DistinctFrom(names, k)
    ensures Requests(names, k, dir, d, fetch, FetchMissing(names, k, dir, d, fetch))
    decreases |names| - k
  {
    if k < |names| {
      var local := Join(dir, names[k]);
      var url := GetDownloadUrl(names[k]);
      var res := fetch(url);
      if !NeedsDownload(d, local) {
        FetchMissingRequests(names, k + 1, dir, d, fetch);
        assert FetchMissing(names, k, dir, d, fetch) == FetchMissing(names, k + 1, dir, d, fetch);
        assert NeedingDownload(names, k, dir, d) == NeedingDownload(names, k + 1, dir, d);
      } else if res.FetchFailed? {
        assert FetchMissing(names, k, dir, d, fetch) == DownloadResult(Store(d, local, res), [url], Threw(res.message));
        assert NeedingDownload(names, k, dir, d) == [url] + NeedingDownload(names, k + 1, dir, d);
      } else {
        var d' := Store(d, local, res);
        FetchMissingRequests(names, k + 1, dir, d', fetch);
        forall j | k + 1 <= j < |names| ensures Join(dir, names[j]) != local {
          if Join(dir, names[j]) == local {
            JoinInjective(dir, names[j], names[k]);
          }
        }
        NeedingDownloadFrame(names, k + 1, dir, d, local, res);
        RequestsStep(names, k, dir, d, fetch);
      }
    }
  }

  /** The step of `FetchMissingRequests` for a file fetched successfully. */
  lemma RequestsStep(names: seq<string>, k: nat, dir: string, d: Disk, fetch: string -> FetchResult)
    requires k < |names|
    requires NeedsDownload(d, Join(dir, names[k]))
    requires fetch(GetDownloadUrl(names[k])).Fetched?
    requires var d' := Store(d, Join(dir, names[k]), fetch(GetDownloadUrl(names[k])));
      && Requests(names, k + 1, dir, d', fetch, FetchMissing(names, k + 1, dir, d', fetch))
      && NeedingDownload(names, k + 1, dir, d') == NeedingDownload(names, k + 1, dir, d)
    ensures Requests(names, k, dir, d, fetch, FetchMissing(names, k, dir, d, fetch))
  {
    var url := GetDownloadUrl(names[k]);
    var d' := Store(d, Join(dir, names[k]), fetch(url));
    var rest := FetchMissing(names, k + 1, dir, d', fetch);
    assert FetchMissing(names, k, dir, d, fetch) == rest.(fetched := [url] + rest.fetched);
    assert NeedingDownload(names, k, dir, d) == [url] + NeedingDownload(names, k + 1, dir, d);
    ReportsCons(fetch, url, rest, NeedingDownload(names, k + 1, dir, d));
  }

  /** The run of `downloadModelFiles`, in terms of the disk it starts from:
      the model directory is added and no other directory, and the requests
      are the URLs of the required files missing or empty at the start, in
      list order, up to the first that throws. */
  lemma DownloadModelFilesRequests(filesDir: string, disk: Disk, fetch: string -> FetchResult)
    ensures DownloadModelFilesRun(filesDir, disk, fetch).disk.dirs == disk.dirs + {ModelDir(filesDir)}
    ensures Requests(REQUIRED_FILES, 0, ModelDir(filesDir), disk, fetch, DownloadModelFilesRun(filesDir, disk, fetch))
  {
    RequiredFilesDistinct();
    FetchMissingRequests(REQUIRED_FILES, 0, ModelDir(filesDir), MkDirs(disk, ModelDir(filesDir)), fetch);
    FetchMissingDirs(REQUIRED_FILES, 0, ModelDir(filesDir), MkDirs(disk, ModelDir(filesDir)), fetch);
    NeedingDownloadDirs(REQUIRED_FILES, 0, ModelDir(filesDir), disk);
  }

  lemma {:induction false} FetchMissingDirs(names: seq<string>, k: nat, dir: string, d: Disk,
                                           fetch: string -> FetchResult)
    requires k <= |names|
    ensures FetchMissing(names, k, dir, d, fetch).disk.dirs == d.dirs
    decreases |names| - k
  {
    if k < |names| {
      var local := Join(dir, names[k]);
      if !NeedsDownload(d, local) {
        FetchMissingDirs(names, k + 1, dir, d, fetch);
      } else {
        var res := fetch(GetDownloadUrl(names[k]));
        if !res.FetchFailed? {
          FetchMissingDirs(names, k + 1, dir, Store(d, local, res), fetch);
        }
      }
    }
  }

  /** Creating the directory does not change which files need fetching. */
  lemma {:induction false} NeedingDownloadDirs(names: seq<string>, k: nat, dir: string, d: Disk)
    requires k <= |names|
    ensures NeedingDownload(names, k, dir, MkDirs(d, dir)) == NeedingDownload(names, k, dir, d)
    decreases |names| - k
  {
    if k < |names| {
      NeedingDownloadDirs(names, k + 1, dir, d);
    }
  }

  /** An available model is downloaded again with no request, the disk
      unchanged. */
  lemma AvailableDownloadIsIdle(filesDir: string, disk: Disk, fetch: string -> FetchResult)
    requires IsModelAvailable(filesDir, disk)
    ensures DownloadModelFilesRun(filesDir, disk, fetch) == DownloadResult(disk, [], Done)
  {
    var dir := ModelDir(filesDir);
    assert MkDirs(disk, dir) == disk;
    FetchMissingIdle(REQUIRED_FILES, 0, dir, disk, fetch);
  }

  lemma {:induction false} FetchMissingIdle(names: seq<string>, k: nat, dir: string, d: Disk,
                                           fetch: string -> FetchResult)
    requires k <= |names|
    requires forall j :: k <= j < |names| ==> IsComplete(d, Join(dir, names[j]))
    ensures FetchMissing(names, k, dir, d, fetch) == DownloadResult(d, [], Done)
    decreases |names| - k
  {
    if k < |names| {
      FetchMissingIdle(names, k + 1, dir, d, fetch);
    }
  }

  /** Every successful transfer writes a non-empty file. */
  ghost predicate NonEmptyFetches(fetch: string -> FetchResult) {
    forall url :: fetch(url).Fetched? ==> fetch(url).length > 0
  }

  /** A loop that ends normally leaves each of names[k..] complete. */
  lemma {:induction false} FetchMissingDoneCompletes(names: seq<string>, k: nat, dir: string, d: Disk,
                                                    fetch: string -> FetchResult)
    requires k <= |names|
    requires NonEmptyFetches(fetch)
    requires FetchMissing(names, k, dir, d, fetch).outcome.Done?
    ensures forall j :: k <= j < |names| ==> IsComplete(FetchMissing(names, k, dir, d, fetch).disk, Join(dir, names[j]))
    decreases |names| - k
  {
    if k < |names| {
      var local := Join(dir, names[k]);
      var res := fetch(GetDownloadUrl(names[k]));
      if NeedsDownload(d, local) {
        assert !res.FetchFailed?;
      }
      var d' := if NeedsDownload(d, local) then Store(d, local, res) else d;
      assert FetchMissing(names, k, dir, d, fetch).disk == FetchMissing(names, k + 1, dir, d', fetch).disk;
      assert FetchMissing(names, k + 1, dir, d', fetch).outcome.Done?;
      assert IsComplete(d', local);
      FetchMissingDoneCompletes(names, k + 1, dir, d', fetch);
      FetchMissingKeepsComplete(names, k + 1, dir, d', fetch, local);
    }
  }

  /** A complete file stays as it is. */
  lemma {:induction false} FetchMissingKeepsComplete(names: seq<string>, k: nat, dir: string, d: Disk,
                                                    fetch: string -> FetchResult, p: string)
    requires k <= |names|
    requires IsComplete(d, p)
    ensures p in FetchMissing(names, k, dir, d, fetch).disk.files
    ensures FetchMissing(names, k, dir, d, fetch).disk.files[p] == d.files[p]
    decreases |names| - k
  {
    if k < |names| {
      var local := Join(dir, names[k]);
      if !NeedsDownload(d, local) {
        FetchMissingKeepsComplete(names, k + 1, dir, d, fetch, p);
      } else {
        var res := fetch(GetDownloadUrl(names[k]));
        if !res.FetchFailed? {
          FetchMissingKeepsComplete(names, k + 1, dir, Store(d, local, res), fetch, p);
        }
      }
    }
  }

  /** A download that returns normally, with no empty bodies, makes the model
      available. */
  lemma DownloadMakesAvailable(filesDir: string, disk: Disk, fetch: string -> FetchResult)
    requires NonEmptyFetches(fetch)
    requires DownloadModelFilesRun(filesDir, disk, fetch).outcome.Done?
    ensures IsModelAvailable(filesDir, DownloadModelFilesRun(filesDir, disk, fetch).disk)
  {
    var dir := ModelDir(filesDir);
    FetchMissingDoneCompletes(REQUIRED_FILES, 0, dir, MkDirs(disk, dir), fetch);
    FetchMissingDirs(REQUIRED_FILES, 0, dir, MkDirs(disk, dir), fetch);
  }
}
