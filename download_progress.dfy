/** The closed set of progress events a model download emits, and the order
    in which its documentation says they come. */
module DownloadProgress {

  datatype Progress =
    | ListingFiles(totalFiles: int)
    | DownloadingFile(currentIndex: int, totalFiles: int, fileName: string)
    | Success
    | Error(message: string)

  predicate IsTerminal(p: Progress) {
    p.Success? || p.Error?
  }

  /** One download run as documented: either a lone `Error` (the listing
      failed), or `ListingFiles(n)` once, then `DownloadingFile(i, n, _)` for
      i = 1, 2, ... before each file, and finally `Success` after all n files
      or an `Error` at any earlier stage. */
  predicate IsRun(events: seq<Progress>) {
    && |events| >= 1
    && IsTerminal(events[|events| - 1])
    && (|events| == 1 ==> events[0].Error?)
    && (|events| > 1 ==>
          && events[0].ListingFiles?
          && |events| <= events[0].totalFiles + 2
          && (events[|events| - 1].Success? ==> |events| == events[0].totalFiles + 2)
          && forall j :: 1 <= j < |events| - 1 ==>
               && events[j].DownloadingFile?
               && events[j].currentIndex == j
               && events[j].totalFiles == events[0].totalFiles)
  }

  /** In a run, exactly the last event is terminal, `ListingFiles` comes at
      most once (first), and indices strictly increase from 1. */
  lemma RunShape(events: seq<Progress>)
    requires IsRun(events)
    ensures forall j :: 0 <= j < |events| - 1 ==> !IsTerminal(events[j])
    ensures forall j :: 1 <= j < |events| ==> !events[j].ListingFiles?
    ensures forall i, j :: 1 <= i < j < |events| - 1 ==>
              events[i].currentIndex < events[j].currentIndex
  {
  }
}
