/**
 * `ModelDownloader` of the app package: list the files of a Hugging Face
 * repository, keep those under one subfolder, and fetch each into a local
 * directory unless it is already there and non-empty, reporting progress as a
 * sequence of `Progress` events.
 *
 * The network is an oracle: the listing call's response is a parameter, and
 * `server(url)` is the response a file request for `url` receives.
 */
module ModelDownloader {
  import opened Wrappers
  import opened Text
  import opened Sorting
  import opened LocalFiles
  import opened DownloadProgress

  const UNKNOWN_ERROR := "Unknown error"

  /** OkHttp's `Response.isSuccessful`: a 2xx (Successful) status code in the
      sense of section 15.3 of RFC 9110. */
  predicate IsSuccessful(code: int) {
    200 <= code <= 299
  }

  // ---------------------------------------------------------------- listing

  /** The body of the repository-info response: absent, not decodable into
      the expected schema (with the decoder's message), or the `siblings`
      list reduced to each entry's `rfilename`. */
  datatype ManifestBody = NoBody | Undecodable(reason: Option<string>) | Siblings(rfilenames: seq<string>)

  datatype ManifestResponse = ManifestResponse(code: int, body: ManifestBody)

  /** `listRepoFiles`: the siblings, or the message of the exception it throws. */
  function ListRepoFiles(resp: ManifestResponse): (r: Result<seq<string>, Option<string>>)
    ensures r.Success? <==> IsSuccessful(resp.code) && resp.body.Siblings?
  {
    if !IsSuccessful(resp.code) then
      Failure(Some("Failed listing repo files: " + IntToString(resp.code)))
    else
      match resp.body
      case NoBody => Failure(Some("Empty response."))
      case Undecodable(reason) => Failure(reason)
      case Siblings(names) => Result.Success(names)
  }

  // ---------------------------------------------------------------- one file

  /** The body of a file response: null, streamed to the end (`length` bytes),
      or broken off by an I/O exception after `written` bytes. `Unreachable`
      stands for a request that got no response at all: `execute()` threw
      (no network, a DNS failure, a timeout) with message `cause`, and the
      status fields are never consulted. */
  datatype FileBody =
    | NullBody
    | Complete(length: nat)
    | Interrupted(written: nat, reason: Option<string>)
    | Unreachable(cause: Option<string>)

  datatype FileResponse = FileResponse(code: int, statusMessage: string, body: FileBody)

  /** The message of the `FileNotFoundException` Android's `FileOutputStream`
      throws when the file's directory does not exist. */
  function OpenFailure(destFile: string): string {
    destFile + ": open failed: ENOENT (No such file or directory)"
  }

  /** `downloadSingleFile(fileUrl, destFile)` on a disk whose directories are
      `dirs`: a failed connection, a non-2xx status or a null body throws
      before the destination is opened; opening it throws when its
      directory does not exist;
      otherwise the destination is (re)created and receives the body,
      completely or up to the point the copy failed. */
  function DownloadSingleFile(fileUrl: string, destFile: string, dirs: set<string>, resp: FileResponse): (r: FetchResult)
    ensures r.Fetched? <==> IsSuccessful(resp.code) && resp.body.Complete? && Parent(destFile) in dirs
    ensures r.Fetched? ==> r.length == resp.body.length
    ensures (resp.body.Unreachable? || !IsSuccessful(resp.code) || resp.body.NullBody? || Parent(destFile) !in dirs) ==>
              r.FetchFailed? && r.partial == None
    ensures resp.body.Unreachable? ==> r.message == resp.body.cause
    ensures !resp.body.Unreachable? && IsSuccessful(resp.code) && !resp.body.NullBody? && Parent(destFile) !in dirs ==>
              r.message == Some(OpenFailure(destFile))
  {
    if resp.body.Unreachable? then
      FetchFailed(None, resp.body.cause)
    else if !IsSuccessful(resp.code) then
      FetchFailed(None, Some("Failed to download file from " + fileUrl + ": "
                             + IntToString(resp.code) + " " + resp.statusMessage))
    else if resp.body.NullBody? then
      FetchFailed(None, Some("Response body is null for " + fileUrl))
    else if Parent(destFile) !in dirs then
      FetchFailed(None, Some(OpenFailure(destFile)))
    else
      match resp.body
      case Complete(n) => Fetched(n)
      case Interrupted(w, reason) => FetchFailed(Some(w), reason)
  }

  // ---------------------------------------------------------------- the run

  /** What to synchronise: `downloadSubfolderFlow`'s four arguments. */
  datatype SyncTarget = SyncTarget(repoId: string, branch: string, subfolder: string, destDir: string)

  function Prefix(t: SyncTarget): string {
    t.subfolder + "/"
  }

  /** Step 2: the entries under the subfolder, sorted by path. */
  function Targets(all: seq<string>, t: SyncTarget): seq<string> {
    Sort(FilterPrefix(all, Prefix(t)))
  }

  /** The resolve URL of the target's branch, to which an entry's path is appended. */
  function UrlBase(t: SyncTarget): string {
    "https://huggingface.co/" + t.repoId + "/resolve/" + t.branch + "/"
  }

  function FileUrl(t: SyncTarget, rfilename: string): string {
    UrlBase(t) + rfilename
  }

  /** The entry a request URL is for. */
  function NameOf(t: SyncTarget, url: string): string {
    RemovePrefix(url, UrlBase(t))
  }

  lemma NameOfFileUrl(t: SyncTarget, rfilename: string)
    ensures NameOf(t, FileUrl(t, rfilename)) == rfilename
  {
    var url := FileUrl(t, rfilename);
    assert url[..|UrlBase(t)|] == UrlBase(t);
    AppendCancel(UrlBase(t), NameOf(t, url), rfilename);
  }

  /** The local file an entry goes to: its path with the subfolder prefix removed. */
  function LocalPath(t: SyncTarget, rfilename: string): string {
    Join(t.destDir, RemovePrefix(rfilename, Prefix(t)))
  }

  /** How the loop over the files ended: after the last file, or at the
      transfer of file `index`, which threw with `message`. */
  datatype Outcome = Completed | FailedAt(index: nat, message: string)

  /** The disk after the loop, the URLs requested in order, and how it ended. */
  datatype LoopResult = LoopResult(disk: Disk, fetched: seq<string>, outcome: Outcome)

  /** The events, the disk afterwards, and the URLs requested, of a whole run. */
  datatype SyncResult = SyncResult(events: seq<Progress>, disk: Disk, fetched: seq<string>)

  /** The transfer a request URL stands for, into its entry's local file on a
      disk with directories `dirs`. */
  function Transfer(t: SyncTarget, dirs: set<string>, server: string -> FileResponse, url: string): FetchResult {
    DownloadSingleFile(url, LocalPath(t, NameOf(t, url)), dirs, server(url))
  }

  predicate TransferFails(t: SyncTarget, dirs: set<string>, server: string -> FileResponse, url: string) {
    Transfer(t, dirs, server, url).FetchFailed?
  }

  /** The transfer of an entry writes its local file. */
  lemma TransferOfEntry(t: SyncTarget, dirs: set<string>, server: string -> FileResponse, rfilename: string)
    ensures Transfer(t, dirs, server, FileUrl(t, rfilename))
      == DownloadSingleFile(FileUrl(t, rfilename), LocalPath(t, rfilename), dirs, server(FileUrl(t, rfilename)))
  {
    NameOfFileUrl(t, rfilename);
  }

  /** The text of the `Error` event for a failed transfer. */
  function FailureText(res: FetchResult): string
    requires res.FetchFailed?
  {
    res.message.GetOr(UNKNOWN_ERROR)
  }

  /** The loop body (`forEachIndexed`) from file k on: a file whose local copy
      is missing or empty is fetched, and the first failing transfer ends the
      loop. */
  function SyncFiles(files: seq<string>, k: nat, t: SyncTarget, d: Disk,
                     server: string -> FileResponse): (r: LoopResult)
    requires k <= |files|
    decreases |files| - k
    ensures r.outcome.FailedAt? ==> k <= r.outcome.index < |files|
  {
    if k == |files| then LoopResult(d, [], Completed)
    else
      var url := FileUrl(t, files[k]);
      var local := LocalPath(t, files[k]);
      if !NeedsDownload(d, local) then SyncFiles(files, k + 1, t, d, server)
      else
        var res := DownloadSingleFile(url, local, d.dirs, server(url));
        if res.FetchFailed? then LoopResult(Store(d, local, res), [url], FailedAt(k, FailureText(res)))
        else
          var rest := SyncFiles(files, k + 1, t, Store(d, local, res), server);
          rest.(fetched := [url] + rest.fetched)
  }

  /** `DownloadingFile(i, n, name)` for every file, i counted from 1. */
  function Announcements(files: seq<string>): (r: seq<Progress>)
    ensures |r| == |files|
  {
    seq(|files|, j requires 0 <= j < |files| => DownloadingFile(j + 1, |files|, files[j]))
  }

  /** The events of the loop: the announcements up to the file where it
      stopped, then `Success` or that file's `Error`. */
  function LoopEvents(files: seq<string>, outcome: Outcome): seq<Progress>
    requires outcome.FailedAt? ==> outcome.index < |files|
  {
    match outcome
    case Completed => Announcements(files) + [Progress.Success]
    case FailedAt(i, m) => Announcements(files)[..i + 1] + [Error(m)]
  }

  /** `downloadSubfolderFlow` as a whole, including its `.catch`. */
  function SyncRun(listing: ManifestResponse, t: SyncTarget, disk: Disk,
                   server: string -> FileResponse): SyncResult
  {
    match ListRepoFiles(listing)
    case Failure(m) => SyncResult([Error(m.GetOr(UNKNOWN_ERROR))], disk, [])
    case Success(all) =>
      var files := Targets(all, t);
      var loop := SyncFiles(files, 0, t, MkDirs(disk, t.destDir), server);
      SyncResult([ListingFiles(|files|)] + LoopEvents(files, loop.outcome), loop.disk, loop.fetched)
  }

  /** The flow, step by step: list, filter and sort, create the directory,
      announce the count, then run the loop over the files. */
  method DownloadSubfolderFlow(t: SyncTarget, listing: ManifestResponse, disk: Disk,
                               server: string -> FileResponse) returns (run: SyncResult)
    ensures run == SyncRun(listing, t, disk, server)
  {
    var listed := ListRepoFiles(listing);
    if listed.Failure? {
      return SyncResult([Error(listed.error.GetOr(UNKNOWN_ERROR))], disk, []);
    }
    var subfolderFiles := Sort(FilterPrefix(listed.value, t.subfolder + "/"));
    var d := disk;
    if t.destDir !in d.dirs {
      d := MkDirs(d, t.destDir);
    }
    assert d == MkDirs(disk, t.destDir);
    var events, loop := DownloadEach(t, subfolderFiles, d, server);
    run := SyncResult([ListingFiles(|subfolderFiles|)] + events, loop.disk, loop.fetched);
  }

  /** The flow's `forEachIndexed` loop: announce each file, fetch it unless it
      is already complete, and stop at the first failing transfer. */
  method DownloadEach(t: SyncTarget, subfolderFiles: seq<string>, disk: Disk,
                      server: string -> FileResponse) returns (events: seq<Progress>, loop: LoopResult)
    ensures loop == SyncFiles(subfolderFiles, 0, t, disk, server)
    ensures events == LoopEvents(subfolderFiles, loop.outcome)
  {
    events := [];
    var fetched := [];
    var d := disk;
    ghost var whole := SyncFiles(subfolderFiles, 0, t, disk, server);
    ghost var rest := whole;
    assert whole == rest.(fetched := fetched + rest.fetched) by {
      assert fetched + rest.fetched == rest.fetched;
    }
    var i := 0;
    while i < |subfolderFiles|
      invariant 0 <= i <= |subfolderFiles|
      invariant events == Announcements(subfolderFiles)[..i]
      invariant rest == SyncFiles(subfolderFiles, i, t, d, server)
      invariant whole == rest.(fetched := fetched + rest.fetched)
    {
      ghost var fetched0 := fetched;
      assert Announcements(subfolderFiles)[..i + 1]
          == events + [DownloadingFile(i + 1, |subfolderFiles|, subfolderFiles[i])];
      events := events + [DownloadingFile(i + 1, |subfolderFiles|, subfolderFiles[i])];
      var requested, failure;
      d, requested, failure := DownloadFile(t, subfolderFiles, i, d, server);
      fetched := fetched + requested;
      if failure.Some? {
        loop := LoopResult(d, fetched, FailedAt(i, failure.value));
        events := events + [Error(failure.value)];
        return;
      }
      ghost var next := SyncFiles(subfolderFiles, i + 1, t, d, server);
      assert rest == next.(fetched := requested + next.fetched);
      assert fetched0 + (requested + next.fetched) == fetched + next.fetched;
      rest := next;
      i := i + 1;
    }
    assert Announcements(subfolderFiles)[..i] == Announcements(subfolderFiles);
    events := events + [Progress.Success];
    assert fetched + [] == fetched;
    loop := LoopResult(d, fetched, Completed);
  }

  /** The loop body for file i: fetch it into its local file unless that is
      already complete; a failing transfer ends the loop with its message. */
  method DownloadFile(t: SyncTarget, files: seq<string>, i: nat, disk: Disk, server: string -> FileResponse)
    returns (d: Disk, requested: seq<string>, failure: Option<string>)
    requires i < |files|
    ensures failure.Some? ==>
      SyncFiles(files, i, t, disk, server) == LoopResult(d, requested, FailedAt(i, failure.value))
    ensures failure.None? ==>
      SyncFiles(files, i, t, disk, server)
        == SyncFiles(files, i + 1, t, d, server).(fetched := requested + SyncFiles(files, i + 1, t, d, server).fetched)
  {
    var hubFile := files[i];
    var fileUrl := FileUrl(t, hubFile);
    var localFile := LocalPath(t, hubFile);
    d := disk;
    requested := [];
    failure := None;
    if localFile !in d.files || d.files[localFile] == 0 {
      var result := DownloadSingleFile(fileUrl, localFile, d.dirs, server(fileUrl));
      d := Store(d, localFile, result);
      requested := [fileUrl];
      if result.FetchFailed? {
        failure := Some(result.message.GetOr(UNKNOWN_ERROR));
      }
    } else {
      assert [] + SyncFiles(files, i + 1, t, d, server).fetched == SyncFiles(files, i + 1, t, d, server).fetched;
    }
  }

  // ---------------------------------------------------------------- events

  function Last<T>(s: seq<T>): T
    requires s != []
  {
    s[|s| - 1]
  }

  /** The directories of the disk the transfers of a run see: `mkdirs` has
      created the destination. */
  function RunDirs(t: SyncTarget, disk: Disk): set<string> {
    MkDirs(disk, t.destDir).dirs
  }

  /** No request in `urls` failed, on a disk with directories `dirs`. */
  ghost predicate AllSucceed(t: SyncTarget, dirs: set<string>, server: string -> FileResponse, urls: seq<string>) {
    forall j :: 0 <= j < |urls| ==> !TransferFails(t, dirs, server, urls[j])
  }

  /** What a loop result says about the requests: a completed loop had no
      failing request; a loop that failed at file i had as its last request
      that file's, which failed with the reported message. */
  ghost predicate LoopReports(files: seq<string>, t: SyncTarget, dirs: set<string>,
                              server: string -> FileResponse, r: LoopResult) {
    && (r.outcome.Completed? ==> AllSucceed(t, dirs, server, r.fetched))
    && (r.outcome.FailedAt? ==>
          && r.outcome.index < |files| && r.fetched != []
          && Last(r.fetched) == FileUrl(t, files[r.outcome.index])
          && TransferFails(t, dirs, server, Last(r.fetched))
          && r.outcome.message == FailureText(Transfer(t, dirs, server, Last(r.fetched))))
  }

  lemma {:induction false} SyncFilesReports(files: seq<string>, k: nat, t: SyncTarget, d: Disk,
                                            server: string -> FileResponse)
    requires k <= |files|
    ensures LoopReports(files, t, d.dirs, server, SyncFiles(files, k, t, d, server))
    decreases |files| - k
  {
    if k < |files| {
      var url := FileUrl(t, files[k]);
      var local := LocalPath(t, files[k]);
      TransferOfEntry(t, d.dirs, server, files[k]);
      if !NeedsDownload(d, local) {
        SyncFilesReports(files, k + 1, t, d, server);
      } else {
        var res := DownloadSingleFile(url, local, d.dirs, server(url));
        if !res.FetchFailed? {
          SyncFilesReports(files, k + 1, t, Store(d, local, res), server);
        }
        ReportsAfterTransfer(files, k, t, d, server);
      }
    }
  }

  /** A transfer that fails is what the loop reports; one that succeeds
      keeps what the rest of the loop reports. */
  lemma ReportsAfterTransfer(files: seq<string>, k: nat, t: SyncTarget, d: Disk, server: string -> FileResponse)
    requires k < |files| && NeedsDownload(d, LocalPath(t, files[k]))
    requires var res := DownloadSingleFile(FileUrl(t, files[k]), LocalPath(t, files[k]), d.dirs, server(FileUrl(t, files[k])));
      res.Fetched? ==>
        LoopReports(files, t, d.dirs, server, SyncFiles(files, k + 1, t, Store(d, LocalPath(t, files[k]), res), server))
    ensures LoopReports(files, t, d.dirs, server, SyncFiles(files, k, t, d, server))
  {
    var url := FileUrl(t, files[k]);
    var local := LocalPath(t, files[k]);
    var res := DownloadSingleFile(url, local, d.dirs, server(url));
    TransferOfEntry(t, d.dirs, server, files[k]);
    var r := SyncFiles(files, k, t, d, server);
    if res.FetchFailed? {
      assert r == LoopResult(Store(d, local, res), [url], FailedAt(k, FailureText(res)));
      assert Last(r.fetched) == url;
    } else {
      var rest := SyncFiles(files, k + 1, t, Store(d, local, res), server);
      assert r.fetched == [url] + rest.fetched && r.outcome == rest.outcome;
      if rest.outcome.Completed? {
        forall j | 0 <= j < |r.fetched| ensures !TransferFails(t, d.dirs, server, r.fetched[j]) {
          if j > 0 {
            assert r.fetched[j] == rest.fetched[j - 1];
          }
        }
      } else {
        assert Last(r.fetched) == Last(rest.fetched);
      }
    }
  }

  /** A failing listing yields a lone `Error` carrying the failure's message
      (or "Unknown error"), touches no file and requests nothing. */
  lemma SyncRunListingFailure(listing: ManifestResponse, t: SyncTarget, disk: Disk,
                              server: string -> FileResponse)
    requires !IsSuccessful(listing.code) || !listing.body.Siblings?
    ensures SyncRun(listing, t, disk, server).disk == disk
    ensures SyncRun(listing, t, disk, server).fetched == []
    ensures |SyncRun(listing, t, disk, server).events| == 1
    ensures SyncRun(listing, t, disk, server).events[0].Error?
    ensures !IsSuccessful(listing.code) ==>
              SyncRun(listing, t, disk, server).events[0].message
                == "Failed listing repo files: " + IntToString(listing.code)
    ensures IsSuccessful(listing.code) && listing.body.NoBody? ==>
              SyncRun(listing, t, disk, server).events[0].message == "Empty response."
  {
  }

  /** After a successful listing: `ListingFiles(n)` with n the number of
      entries under the subfolder, then `DownloadingFile(i, n, name_i)` for
      i = 1, 2, ... over the full repository paths in ascending order, then
      `Success` exactly when no requested transfer failed (every file having
      been announced), and otherwise the `Error` of the last request. The
      transfers run on the disk after `mkdirs` of the destination. */
  lemma SyncRunEvents(listing: ManifestResponse, t: SyncTarget, disk: Disk,
                      server: string -> FileResponse)
    requires ListRepoFiles(listing).Success?
    ensures var files := Targets(ListRepoFiles(listing).value, t);
      var r := SyncRun(listing, t, disk, server);
      && |files| == |FilterPrefix(ListRepoFiles(listing).value, Prefix(t))|
      && 2 <= |r.events| <= |files| + 2
      && r.events[0] == ListingFiles(|files|)
      && r.events[1..|r.events| - 1] == Announcements(files)[..|r.events| - 2]
      && ((Last(r.events) == Progress.Success) <==> AllSucceed(t, RunDirs(t, disk), server, r.fetched))
      && (Last(r.events) == Progress.Success ==>
            r.events == [ListingFiles(|files|)] + Announcements(files) + [Progress.Success])
      && (Last(r.events) != Progress.Success ==>
            && r.fetched != [] && TransferFails(t, RunDirs(t, disk), server, Last(r.fetched))
            && Last(r.events) == Error(FailureText(Transfer(t, RunDirs(t, disk), server, Last(r.fetched)))))
  {
    var files := Targets(ListRepoFiles(listing).value, t);
    assert |files| == |FilterPrefix(ListRepoFiles(listing).value, Prefix(t))|;
    var loop := SyncFiles(files, 0, t, MkDirs(disk, t.destDir), server);
    SyncFilesReports(files, 0, t, MkDirs(disk, t.destDir), server);
    LoopEventsShape(files, loop.outcome);
    var r := SyncRun(listing, t, disk, server);
    assert r.events == [ListingFiles(|files|)] + LoopEvents(files, loop.outcome) && r.fetched == loop.fetched;
    if loop.outcome.FailedAt? {
      assert !AllSucceed(t, RunDirs(t, disk), server, r.fetched) by {
        assert TransferFails(t, RunDirs(t, disk), server, r.fetched[|r.fetched| - 1]);
      }
    }
  }

  /** The events of a run after its listing, by how the loop ended. */
  lemma LoopEventsShape(files: seq<string>, outcome: Outcome)
    requires outcome.FailedAt? ==> outcome.index < |files|
    ensures var e := [ListingFiles(|files|)] + LoopEvents(files, outcome);
      && 2 <= |e| <= |files| + 2
      && e[0] == ListingFiles(|files|)
      && e[1..|e| - 1] == Announcements(files)[..|e| - 2]
      && (Last(e) == Progress.Success <==> outcome.Completed?)
      && (outcome.Completed? ==> e == [ListingFiles(|files|)] + Announcements(files) + [Progress.Success])
      && (outcome.FailedAt? ==> Last(e) == Error(outcome.message))
  {
    var e := [ListingFiles(|files|)] + LoopEvents(files, outcome);
    match outcome
    case Completed =>
      assert e[1..|e| - 1] == Announcements(files);
    case FailedAt(i, m) =>
      assert e == [ListingFiles(|files|)] + Announcements(files)[..i + 1] + [Error(m)];
      assert e[1..|e| - 1] == Announcements(files)[..i + 1];
  }

  /** Every run follows the documented emission protocol. */
  lemma SyncRunFollowsProtocol(listing: ManifestResponse, t: SyncTarget, disk: Disk,
                               server: string -> FileResponse)
    ensures IsRun(SyncRun(listing, t, disk, server).events)
  {
    if ListRepoFiles(listing).Success? {
      SyncRunEvents(listing, t, disk, server);
      var files := Targets(ListRepoFiles(listing).value, t);
      var e := SyncRun(listing, t, disk, server).events;
      forall j | 1 <= j < |e| - 1
        ensures e[j].DownloadingFile? && e[j].currentIndex == j && e[j].totalFiles == e[0].totalFiles
      {
        assert e[j] == e[1..|e| - 1][j - 1];
      }
    }
  }

  /** A failing transfer ends the run with its one `Error`, and nothing
      terminal comes before it. */
  lemma TransferFailureEndsInError(listing: ManifestResponse, t: SyncTarget, disk: Disk,
                                   server: string -> FileResponse, j: nat)
    requires j < |SyncRun(listing, t, disk, server).fetched|
    requires TransferFails(t, RunDirs(t, disk), server, SyncRun(listing, t, disk, server).fetched[j])
    ensures |SyncRun(listing, t, disk, server).events| >= 2
    ensures Last(SyncRun(listing, t, disk, server).events).Error?
    ensures forall i :: 0 <= i < |SyncRun(listing, t, disk, server).events| - 1 ==>
              !IsTerminal(SyncRun(listing, t, disk, server).events[i])
  {
    if ListRepoFiles(listing).Success? {
      SyncRunEvents(listing, t, disk, server);
      SyncRunFollowsProtocol(listing, t, disk, server);
      RunShape(SyncRun(listing, t, disk, server).events);
    }
  }

  // ---------------------------------------------------------------- the disk

  /** `p` is none of the local targets of files[k..]. */
  predicate Untargeted(files: seq<string>, k: nat, t: SyncTarget, p: string) {
    forall j :: k <= j < |files| ==> p != LocalPath(t, files[j])
  }

  /** `p` has the same existence and length on both disks. */
  predicate SameFile(d: Disk, d': Disk, p: string) {
    && (p in d'.files <==> p in d.files)
    && (p in d.files ==> d'.files[p] == d.files[p])
  }

  /** The loop writes only the local targets of files[k..], and never the
      set of directories. */
  lemma {:induction false} SyncFilesFrame(files: seq<string>, k: nat, t: SyncTarget, d: Disk,
                                          server: string -> FileResponse, p: string)
    requires k <= |files|
    ensures SyncFiles(files, k, t, d, server).disk.dirs == d.dirs
    ensures Untargeted(files, k, t, p) ==> SameFile(d, SyncFiles(files, k, t, d, server).disk, p)
    decreases |files| - k
  {
    if k < |files| {
      var url := FileUrl(t, files[k]);
      var local := LocalPath(t, files[k]);
      if !NeedsDownload(d, local) {
        SyncFilesFrame(files, k + 1, t, d, server, p);
      } else {
        var res := DownloadSingleFile(url, local, d.dirs, server(url));
        if !res.FetchFailed? {
          SyncFilesFrame(files, k + 1, t, Store(d, local, res), server, p);
        }
      }
    }
  }

  /** Apart from creating the destination directory, a run changes no file
      but the local targets of the filtered entries. */
  lemma SyncRunOnlyWritesTargets(listing: ManifestResponse, t: SyncTarget, disk: Disk,
                                 server: string -> FileResponse, p: string)
    requires ListRepoFiles(listing).Success?
    requires forall name :: name in Targets(ListRepoFiles(listing).value, t) ==> p != LocalPath(t, name)
    ensures SyncRun(listing, t, disk, server).disk.dirs == disk.dirs + {t.destDir}
    ensures SameFile(disk, SyncRun(listing, t, disk, server).disk, p)
  {
    var files := Targets(ListRepoFiles(listing).value, t);
    assert Untargeted(files, 0, t, p) by {
      forall j | 0 <= j < |files| ensures p != LocalPath(t, files[j]) {
        assert files[j] in files;
      }
    }
    SyncFilesFrame(files, 0, t, MkDirs(disk, t.destDir), server, p);
  }

  /** Files already present stay present, and non-empty files are never
      re-fetched or changed: completeness only grows. */
  lemma {:induction false} SyncFilesMonotone(files: seq<string>, k: nat, t: SyncTarget, d: Disk,
                                             server: string -> FileResponse, p: string)
    requires k <= |files|
    ensures p in d.files ==> p in SyncFiles(files, k, t, d, server).disk.files
    ensures IsComplete(d, p) ==> SameFile(d, SyncFiles(files, k, t, d, server).disk, p)
    decreases |files| - k
  {
    if k < |files| {
      var url := FileUrl(t, files[k]);
      var local := LocalPath(t, files[k]);
      if !NeedsDownload(d, local) {
        SyncFilesMonotone(files, k + 1, t, d, server, p);
      } else {
        var res := DownloadSingleFile(url, local, d.dirs, server(url));
        if !res.FetchFailed? {
          SyncFilesMonotone(files, k + 1, t, Store(d, local, res), server, p);
        }
      }
    }
  }

  /** Every successful response carries a non-empty body. */
  ghost predicate NonEmptyBodies(server: string -> FileResponse) {
    forall url :: server(url).body.Complete? ==> server(url).body.length > 0
  }

  /** Every local target of files[k..] exists, and is non-empty when the
      server never sends an empty successful body. */
  ghost predicate TargetsPresent(files: seq<string>, k: nat, t: SyncTarget, d: Disk,
                                 server: string -> FileResponse) {
    forall j :: k <= j < |files| ==>
      && LocalPath(t, files[j]) in d.files
      && (NonEmptyBodies(server) ==> IsComplete(d, LocalPath(t, files[j])))
  }

  /** A loop that completes leaves every local target of files[k..] in place. */
  lemma {:induction false} SyncFilesCompletedLeavesTargets(files: seq<string>, k: nat, t: SyncTarget,
                                                          d: Disk, server: string -> FileResponse)
    requires k <= |files|
    requires SyncFiles(files, k, t, d, server).outcome.Completed?
    ensures TargetsPresent(files, k, t, SyncFiles(files, k, t, d, server).disk, server)
    decreases |files| - k
  {
    if k < |files| {
      var url := FileUrl(t, files[k]);
      var local := LocalPath(t, files[k]);
      var res := DownloadSingleFile(url, local, d.dirs, server(url));
      var d' := if NeedsDownload(d, local) then Store(d, local, res) else d;
      assert SyncFiles(files, k, t, d, server).disk == SyncFiles(files, k + 1, t, d', server).disk;
      SyncFilesCompletedLeavesTargets(files, k + 1, t, d', server);
      SyncFilesMonotone(files, k + 1, t, d', server, local);
      assert local in d'.files;
      if NonEmptyBodies(server) {
        assert IsComplete(d', local);
      }
    }
  }

  /** After a run that ends in `Success`, the destination exists and every
      expected local file exists (non-empty under `NonEmptyBodies`). */
  lemma SyncRunSuccessLeavesTargets(listing: ManifestResponse, t: SyncTarget, disk: Disk,
                                    server: string -> FileResponse)
    requires Last(SyncRun(listing, t, disk, server).events) == Progress.Success
    ensures ListRepoFiles(listing).Success?
    ensures t.destDir in SyncRun(listing, t, disk, server).disk.dirs
    ensures forall name :: name in Targets(ListRepoFiles(listing).value, t) ==>
              && LocalPath(t, name) in SyncRun(listing, t, disk, server).disk.files
              && (NonEmptyBodies(server) ==> IsComplete(SyncRun(listing, t, disk, server).disk, LocalPath(t, name)))
  {
    if ListRepoFiles(listing).Success? {
      var files := Targets(ListRepoFiles(listing).value, t);
      var d := MkDirs(disk, t.destDir);
      var loop := SyncFiles(files, 0, t, d, server);
      assert loop.outcome.Completed?;
      SyncFilesCompletedLeavesTargets(files, 0, t, d, server);
      SyncFilesFrame(files, 0, t, d, server, "");
      forall name | name in files
        ensures LocalPath(t, name) in loop.disk.files
        ensures NonEmptyBodies(server) ==> IsComplete(loop.disk, LocalPath(t, name))
      {
        var j :| 0 <= j < |files| && files[j] == name;
      }
    }
  }

  // ---------------------------------------------------------------- idempotence

  /** When every local target of files[k..] is already complete, the loop
      requests nothing, changes nothing and completes. */
  lemma {:induction false} SyncFilesIdle(files: seq<string>, k: nat, t: SyncTarget, d: Disk,
                                         server: string -> FileResponse)
    requires k <= |files|
    requires forall j :: k <= j < |files| ==> IsComplete(d, LocalPath(t, files[j]))
    ensures SyncFiles(files, k, t, d, server) == LoopResult(d, [], Completed)
    decreases |files| - k
  {
    if k < |files| {
      SyncFilesIdle(files, k + 1, t, d, server);
    }
  }

  /** A run over a destination that already holds every expected file,
      non-empty, performs no transfer and yields the full
      `ListingFiles .. Success` envelope. */
  lemma PopulatedDestinationFetchesNothing(listing: ManifestResponse, t: SyncTarget, disk: Disk,
                                           server: string -> FileResponse)
    requires ListRepoFiles(listing).Success?
    requires forall name :: name in Targets(ListRepoFiles(listing).value, t) ==>
               IsComplete(disk, LocalPath(t, name))
    ensures var files := Targets(ListRepoFiles(listing).value, t);
      SyncRun(listing, t, disk, server)
        == SyncResult([ListingFiles(|files|)] + Announcements(files) + [Progress.Success],
                      MkDirs(disk, t.destDir), [])
  {
    var files := Targets(ListRepoFiles(listing).value, t);
    forall j | 0 <= j < |files| ensures IsComplete(MkDirs(disk, t.destDir), LocalPath(t, files[j])) {
      assert files[j] in files;
    }
    SyncFilesIdle(files, 0, t, MkDirs(disk, t.destDir), server);
  }

  /** Running the download again after a successful run over the same
      manifest, with a server that never sends empty bodies, requests nothing,
      changes nothing and yields the same events, whatever the network does
      the second time. */
  lemma SecondRunIsIdle(listing: ManifestResponse, t: SyncTarget, disk: Disk,
                        server: string -> FileResponse, server2: string -> FileResponse)
    requires NonEmptyBodies(server)
    requires Last(SyncRun(listing, t, disk, server).events) == Progress.Success
    ensures SyncRun(listing, t, SyncRun(listing, t, disk, server).disk, server2).fetched == []
    ensures SyncRun(listing, t, SyncRun(listing, t, disk, server).disk, server2).events
              == SyncRun(listing, t, disk, server).events
    ensures SyncRun(listing, t, SyncRun(listing, t, disk, server).disk, server2).disk
              == SyncRun(listing, t, disk, server).disk
  {
    var r := SyncRun(listing, t, disk, server);
    SyncRunSuccessLeavesTargets(listing, t, disk, server);
    SyncRunEvents(listing, t, disk, server);
    PopulatedDestinationFetchesNothing(listing, t, r.disk, server2);
    assert MkDirs(r.disk, t.destDir) == r.disk;
  }

  /** The requests for files[k..], in order. */
  function Urls(t: SyncTarget, files: seq<string>, k: nat): (r: seq<string>)
    requires k <= |files|
    decreases |files| - k
    ensures |r| == |files| - k
    ensures forall j :: 0 <= j < |r| ==> r[j] == FileUrl(t, files[k + j])
  {
    if k == |files| then [] else [FileUrl(t, files[k])] + Urls(t, files, k + 1)
  }

  /** On a destination holding none of the expected files, with distinct
      local targets and no transfer failing, every entry is requested once,
      in order, and the loop completes. */
  lemma {:induction false} SyncFilesFresh(files: seq<string>, k: nat, t: SyncTarget, d: Disk,
                                          server: string -> FileResponse)
    requires k <= |files|
    requires forall j :: k <= j < |files| ==> LocalPath(t, files[j]) !in d.files
    requires forall i, j :: k <= i < j < |files| ==> LocalPath(t, files[i]) != LocalPath(t, files[j])
    requires forall j :: k <= j < |files| ==> !TransferFails(t, d.dirs, server, FileUrl(t, files[j]))
    ensures SyncFiles(files, k, t, d, server).fetched == Urls(t, files, k)
    ensures SyncFiles(files, k, t, d, server).outcome == Completed
    decreases |files| - k
  {
    if k < |files| {
      var url := FileUrl(t, files[k]);
      var local := LocalPath(t, files[k]);
      var res := DownloadSingleFile(url, local, d.dirs, server(url));
      TransferOfEntry(t, d.dirs, server, files[k]);
      SyncFilesFresh(files, k + 1, t, Store(d, local, res), server);
    }
  }

  /** Distinct manifest entries under the subfolder have distinct local files. */
  lemma TargetsLocalPathsDistinct(all: seq<string>, t: SyncTarget)
    requires Distinct(all)
    ensures forall i, j :: 0 <= i < j < |Targets(all, t)| ==>
              LocalPath(t, Targets(all, t)[i]) != LocalPath(t, Targets(all, t)[j])
  {
    var files := Targets(all, t);
    FilterPrefixDistinct(all, Prefix(t));
    SortKeepsDistinct(FilterPrefix(all, Prefix(t)));
    forall i, j | 0 <= i < j < |files| ensures LocalPath(t, files[i]) != LocalPath(t, files[j]) {
      assert files[i] in multiset(FilterPrefix(all, Prefix(t)));
      assert files[j] in multiset(FilterPrefix(all, Prefix(t)));
      assert StartsWith(files[i], Prefix(t)) && StartsWith(files[j], Prefix(t));
      if LocalPath(t, files[i]) == LocalPath(t, files[j]) {
        JoinInjective(t.destDir, RemovePrefix(files[i], Prefix(t)), RemovePrefix(files[j], Prefix(t)));
        RemovePrefixInjective(files[i], files[j], Prefix(t));
      }
    }
  }

  /** On an empty destination, with distinct manifest entries and working
      transfers, the run requests every entry under the subfolder once, in
      ascending order, and succeeds. */
  lemma FreshDestinationFetchesEverything(listing: ManifestResponse, t: SyncTarget, disk: Disk,
                                          server: string -> FileResponse)
    requires ListRepoFiles(listing).Success?
    requires Distinct(ListRepoFiles(listing).value)
    requires forall name :: name in Targets(ListRepoFiles(listing).value, t) ==>
      LocalPath(t, name) !in disk.files && !TransferFails(t, RunDirs(t, disk), server, FileUrl(t, name))
    ensures SyncRun(listing, t, disk, server).fetched == Urls(t, Targets(ListRepoFiles(listing).value, t), 0)
    ensures var files := Targets(ListRepoFiles(listing).value, t);
      SyncRun(listing, t, disk, server).events
        == [ListingFiles(|files|)] + Announcements(files) + [Progress.Success]
  {
    var files := Targets(ListRepoFiles(listing).value, t);
    TargetsLocalPathsDistinct(ListRepoFiles(listing).value, t);
    forall j | 0 <= j < |files|
      ensures LocalPath(t, files[j]) !in MkDirs(disk, t.destDir).files
      ensures !TransferFails(t, RunDirs(t, disk), server, FileUrl(t, files[j]))
    {
      assert files[j] in files;
    }
    SyncFilesFresh(files, 0, t, MkDirs(disk, t.destDir), server);
  }

  // ---------------------------------------------------------------- directories

  /** A transfer of an entry succeeds exactly when the server answers 2xx
      with a body delivered in full and the entry's local directory exists. */
  lemma TransferSucceedsIff(t: SyncTarget, dirs: set<string>, server: string -> FileResponse, rfilename: string)
    ensures !TransferFails(t, dirs, server, FileUrl(t, rfilename)) <==>
      && IsSuccessful(server(FileUrl(t, rfilename)).code)
      && server(FileUrl(t, rfilename)).body.Complete?
      && Parent(LocalPath(t, rfilename)) in dirs
  {
    TransferOfEntry(t, dirs, server, rfilename);
  }

  /** A request that gets no response leaves the disk as it was and reports
      the exception's message, or "Unknown error" when it has none. */
  lemma ConnectionFailureWritesNothing(t: SyncTarget, d: Disk, server: string -> FileResponse, rfilename: string)
    requires server(FileUrl(t, rfilename)).body.Unreachable?
    ensures var res := Transfer(t, d.dirs, server, FileUrl(t, rfilename));
      && res == FetchFailed(None, server(FileUrl(t, rfilename)).body.cause)
      && Store(d, LocalPath(t, rfilename), res) == d
      && FailureText(res) == server(FileUrl(t, rfilename)).body.cause.GetOr(UNKNOWN_ERROR)
  {
    TransferOfEntry(t, d.dirs, server, rfilename);
  }

  /** An entry directly under the subfolder is written into the destination
      directory itself, which the run has created. */
  lemma FlatEntryHasDirectory(t: SyncTarget, disk: Disk, rfilename: string)
    requires '/' !in RemovePrefix(rfilename, Prefix(t))
    ensures Parent(LocalPath(t, rfilename)) in RunDirs(t, disk)
  {
    ParentOfJoin(t.destDir, RemovePrefix(rfilename, Prefix(t)));
  }

  /** An entry `subfolder/a/b` targets `destDir/a/b`; the run creates only
      `destDir`, so unless `destDir/a` exists already, opening the file
      fails and the transfer fails whatever the server sends, writing
      nothing, with the open failure as message when a 2xx response with a
      body arrived. */
  lemma NestedEntryFails(t: SyncTarget, disk: Disk, server: string -> FileResponse, a: string, b: string)
    requires '/' !in b
    requires Join(t.destDir, a) !in disk.dirs
    ensures var name := Prefix(t) + a + "/" + b;
      && TransferFails(t, RunDirs(t, disk), server, FileUrl(t, name))
      && Transfer(t, RunDirs(t, disk), server, FileUrl(t, name)).partial == None
      && (&& IsSuccessful(server(FileUrl(t, name)).code)
          && (server(FileUrl(t, name)).body.Complete? || server(FileUrl(t, name)).body.Interrupted?) ==>
            Transfer(t, RunDirs(t, disk), server, FileUrl(t, name)).message
              == Some(OpenFailure(LocalPath(t, name))))
  {
    var name := Prefix(t) + a + "/" + b;
    assert name == Prefix(t) + (a + "/" + b);
    assert name[..|Prefix(t)|] == Prefix(t);
    AppendCancel(Prefix(t), RemovePrefix(name, Prefix(t)), a + "/" + b);
    assert LocalPath(t, name) == Join(Join(t.destDir, a), b);
    ParentOfJoin(Join(t.destDir, a), b);
    assert |Join(t.destDir, a)| > |t.destDir|;
    TransferOfEntry(t, RunDirs(t, disk), server, name);
  }

  /** A listing whose one entry sits in a nested folder of the subfolder,
      on a destination lacking that folder: the run announces the file and
      ends in the open failure, leaving no file behind. */
  lemma NestedEntryEndsInError(listing: ManifestResponse, t: SyncTarget, disk: Disk,
                               server: string -> FileResponse, a: string, b: string)
    requires ListRepoFiles(listing) == Result.Success([Prefix(t) + a + "/" + b])
    requires '/' !in b
    requires Join(t.destDir, a) !in disk.dirs
    requires LocalPath(t, Prefix(t) + a + "/" + b) !in disk.files
    requires IsSuccessful(server(FileUrl(t, Prefix(t) + a + "/" + b)).code)
    requires server(FileUrl(t, Prefix(t) + a + "/" + b)).body.Complete?
          || server(FileUrl(t, Prefix(t) + a + "/" + b)).body.Interrupted?
    ensures var name := Prefix(t) + a + "/" + b;
      SyncRun(listing, t, disk, server).events
        == [ListingFiles(1), DownloadingFile(1, 1, name), Error(OpenFailure(LocalPath(t, name)))]
    ensures SyncRun(listing, t, disk, server).disk == MkDirs(disk, t.destDir)
  {
    var name := Prefix(t) + a + "/" + b;
    assert name[..|Prefix(t)|] == Prefix(t);
    assert FilterPrefix([name], Prefix(t)) == [name];
    var files := Targets([name], t);
    assert files[0] in multiset([name]);
    assert files == [name];
    NestedEntryFails(t, disk, server, a, b);
    TransferOfEntry(t, RunDirs(t, disk), server, name);
    var res := DownloadSingleFile(FileUrl(t, name), LocalPath(t, name), RunDirs(t, disk), server(FileUrl(t, name)));
    assert res.partial == None;
    var loop := SyncFiles(files, 0, t, MkDirs(disk, t.destDir), server);
    assert loop.disk == Store(MkDirs(disk, t.destDir), LocalPath(t, name), res);
    assert loop.outcome == FailedAt(0, OpenFailure(LocalPath(t, name)));
    assert Announcements(files)[..1] == [DownloadingFile(1, 1, name)];
  }

  /** On an empty destination, with distinct manifest entries that all sit
      directly under the subfolder and every transfer answered 2xx with a
      complete body, the run requests every entry once, in ascending order,
      and succeeds. */
  lemma FreshFlatDestinationFetchesEverything(listing: ManifestResponse, t: SyncTarget, disk: Disk,
                                              server: string -> FileResponse)
    requires ListRepoFiles(listing).Success?
    requires Distinct(ListRepoFiles(listing).value)
    requires forall name :: name in Targets(ListRepoFiles(listing).value, t) ==>
      && LocalPath(t, name) !in disk.files
      && '/' !in RemovePrefix(name, Prefix(t))
      && IsSuccessful(server(FileUrl(t, name)).code)
      && server(FileUrl(t, name)).body.Complete?
    ensures SyncRun(listing, t, disk, server).fetched == Urls(t, Targets(ListRepoFiles(listing).value, t), 0)
    ensures var files := Targets(ListRepoFiles(listing).value, t);
      SyncRun(listing, t, disk, server).events
        == [ListingFiles(|files|)] + Announcements(files) + [Progress.Success]
  {
    forall name | name in Targets(ListRepoFiles(listing).value, t)
      ensures !TransferFails(t, RunDirs(t, disk), server, FileUrl(t, name))
    {
      FlatEntryHasDirectory(t, disk, name);
      TransferSucceedsIff(t, RunDirs(t, disk), server, name);
    }
    FreshDestinationFetchesEverything(listing, t, disk, server);
  }
}
