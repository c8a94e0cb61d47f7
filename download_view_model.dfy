/**
 * `DownloadViewModel`: the download screen's state, and how it follows the
 * progress events of a model download.
 */
module DownloadViewModel {
  import opened Wrappers
  import opened LocalFiles
  import opened DownloadProgress
  import opened ModelDownloader
  import Phi4ModelRepository

  /** `DownloadUiState`; the initial state is `(false, null, 0, 0, "")`. */
  datatype DownloadUiState = DownloadUiState(
    isDownloading: bool,
    errorMessage: Option<string>,
    currentFileIndex: int,
    totalFiles: int,
    currentFileName: string)

  const INITIAL_UI := DownloadUiState(false, None, 0, 0, "")

  /** Both observable fields of the view model. */
  datatype ScreenState = ScreenState(ui: DownloadUiState, isModelAvailable: bool)

  /** `downloadModel`'s first assignment: downloading, with no error shown. */
  function Started(ui: DownloadUiState): (r: DownloadUiState)
    ensures r.isDownloading && r.errorMessage == None
    ensures r.(isDownloading := ui.isDownloading, errorMessage := ui.errorMessage) == ui
  {
    ui.(isDownloading := true, errorMessage := None)
  }

  /** The `when (progress)` branch of the collector for one event. */
  function Step(st: ScreenState, p: Progress): ScreenState {
    match p
    case ListingFiles(n) =>
      st.(ui := st.ui.(totalFiles := n, currentFileIndex := 0, currentFileName := ""))
    case DownloadingFile(i, n, name) =>
      st.(ui := st.ui.(currentFileIndex := i, totalFiles := n, currentFileName := name))
    case Success =>
      ScreenState(st.ui.(isDownloading := false), true)
    case Error(m) =>
      st.(ui := st.ui.(isDownloading := false, errorMessage := Some(m)))
  }

  /** The state after collecting `events` in order. */
  function Collect(st: ScreenState, events: seq<Progress>): ScreenState
    decreases |events|
  {
    if events == [] then st else Step(Collect(st, events[..|events| - 1]), events[|events| - 1])
  }

  class DownloadViewModel {
    var uiState: DownloadUiState
    var isModelAvailable: bool

    /** The view model once `init`'s availability query has answered. */
    constructor(repositoryAvailable: bool)
      ensures uiState == INITIAL_UI
      ensures isModelAvailable == repositoryAvailable
    {
      uiState := INITIAL_UI;
      isModelAvailable := repositoryAvailable;
    }

    /** One collected progress event. */
    method OnProgress(p: Progress)
      modifies this
      ensures ScreenState(uiState, isModelAvailable) == Step(ScreenState(old(uiState), old(isModelAvailable)), p)
    {
      match p
      case ListingFiles(n) =>
        uiState := uiState.(totalFiles := n, currentFileIndex := 0, currentFileName := "");
      case DownloadingFile(i, n, name) =>
        uiState := uiState.(currentFileIndex := i, totalFiles := n, currentFileName := name);
      case Success =>
        uiState := uiState.(isDownloading := false);
        isModelAvailable := true;
      case Error(m) =>
        uiState := uiState.(isDownloading := false, errorMessage := Some(m));
    }

    /** `downloadModel`, with `events` the flow the repository returns for the
        Phi-4 repository, branch and subfolder, collected to its end. */
    method DownloadModel(events: seq<Progress>)
      modifies this
      ensures ScreenState(uiState, isModelAvailable)
           == Collect(ScreenState(Started(old(uiState)), old(isModelAvailable)), events)
      ensures IsRun(events) ==> !uiState.isDownloading
      ensures IsRun(events) ==> (uiState.errorMessage == None <==> events[|events| - 1].Success?)
    {
      uiState := uiState.(isDownloading := true, errorMessage := None);
      ghost var st0 := ScreenState(uiState, isModelAvailable);
      for i := 0 to |events|
        invariant ScreenState(uiState, isModelAvailable) == Collect(st0, events[..i])
      {
        assert events[..i + 1][..i] == events[..i];
        OnProgress(events[i]);
      }
      assert events[..|events|] == events;
      if IsRun(events) {
        CollectRun(st0, events);
      }
    }
  }

  /** While a run is in progress (after its first i events, none terminal) the
      flags are as the run found them, and the screen shows the file being
      fetched: index i - 1 of the listed total, 0 and "" right after listing. */
  lemma {:induction false} CollectProgress(st: ScreenState, events: seq<Progress>, i: nat)
    requires IsRun(events) && 1 <= i < |events|
    ensures Collect(st, events[..i]).isModelAvailable == st.isModelAvailable
    ensures Collect(st, events[..i]).ui.isDownloading == st.ui.isDownloading
    ensures Collect(st, events[..i]).ui.errorMessage == st.ui.errorMessage
    ensures Collect(st, events[..i]).ui.currentFileIndex == i - 1
    ensures Collect(st, events[..i]).ui.totalFiles == events[0].totalFiles
    ensures Collect(st, events[..i]).ui.currentFileName == (if i == 1 then "" else events[i - 1].fileName)
  {
    assert events[..i][..i - 1] == events[..i - 1];
    if i == 1 {
      assert events[..0] == [];
    } else {
      CollectProgress(st, events, i - 1);
    }
  }

  /** After a whole run: not downloading; the model marked available iff it
      was or the run succeeded; the error shown is the run's `Error`, and
      after `Success` the counter stands at the listed total. */
  lemma CollectRun(st: ScreenState, events: seq<Progress>)
    requires IsRun(events)
    ensures !Collect(st, events).ui.isDownloading
    ensures Collect(st, events).isModelAvailable == (st.isModelAvailable || events[|events| - 1].Success?)
    ensures Collect(st, events).ui.errorMessage
         == (if events[|events| - 1].Success? then st.ui.errorMessage else Some(events[|events| - 1].message))
    ensures events[|events| - 1].Success? ==>
              && Collect(st, events).ui.currentFileIndex == events[0].totalFiles
              && Collect(st, events).ui.totalFiles == events[0].totalFiles
  {
    if |events| > 1 {
      CollectProgress(st, events, |events| - 1);
    } else {
      assert events[..0] == [];
    }
  }

  /** The screen after the app's download: it shows no error exactly when the
      listing succeeded and no transfer failed, and then the model is marked
      available and the counter stands at the number of files listed. */
  lemma ScreenAfterSync(ui: DownloadUiState, available: bool, listing: ManifestResponse, t: SyncTarget,
                        disk: Disk, server: string -> FileResponse)
    ensures var st := Collect(ScreenState(Started(ui), available), SyncRun(listing, t, disk, server).events);
      && !st.ui.isDownloading
      && (st.ui.errorMessage == None <==>
            ListRepoFiles(listing).Success? && AllSucceed(t, RunDirs(t, disk), server, SyncRun(listing, t, disk, server).fetched))
      && (st.ui.errorMessage == None ==>
            && st.isModelAvailable
            && st.ui.currentFileIndex == st.ui.totalFiles == |Targets(ListRepoFiles(listing).value, t)|)
  {
    var events := SyncRun(listing, t, disk, server).events;
    SyncRunFollowsProtocol(listing, t, disk, server);
    CollectRun(ScreenState(Started(ui), available), events);
    if ListRepoFiles(listing).Success? {
      SyncRunEvents(listing, t, disk, server);
    } else {
      SyncRunListingFailure(listing, t, disk, server);
    }
  }

  /** When the screen reports success after downloading through the app's
      Phi-4 repository, the repository's own availability check, over the same
      manifest, agrees (given non-empty file bodies). */
  lemma ScreenSuccessMeansRepositoryAvailable(ui: DownloadUiState, available: bool, filesDir: string,
                                              listing: ManifestResponse, disk: Disk,
                                              server: string -> FileResponse)
    requires NonEmptyBodies(server)
    requires Collect(ScreenState(Started(ui), available),
                     SyncRun(listing, Phi4ModelRepository.AppTarget(filesDir), disk, server).events).ui.errorMessage == None
    ensures Phi4ModelRepository.ModelAvailable(
              filesDir, listing, SyncRun(listing, Phi4ModelRepository.AppTarget(filesDir), disk, server).disk)
  {
    var t := Phi4ModelRepository.AppTarget(filesDir);
    var events := SyncRun(listing, t, disk, server).events;
    SyncRunFollowsProtocol(listing, t, disk, server);
    CollectRun(ScreenState(Started(ui), available), events);
    Phi4ModelRepository.DownloadSuccessMakesAvailable(filesDir, listing, disk, server);
  }
}
