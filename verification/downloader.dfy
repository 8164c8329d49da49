/**
 * The download tab: a simulated download that counts through ten steps and then
 * marks the record downloaded, guarded by the store's global `isDownloading` flag.
 */
module Downloader {
  import opened Wrappers
  import opened GameTypes
  import opened GameStore
  import opened Progress

  const DownloadError := "An error occurred during download. Please try again."

  /** The size the simulation reports. */
  const MockSize := "15.2 MB"

  /** `{ isDownloaded: true, size: '15.2 MB' }`. */
  const DownloadPatch: Patch := EmptyPatch.(isDownloaded := Some(true), size := Some(MockSize))

  /** The one store update of a download sets both fields together and nothing else. */
  lemma DownloadPatchSetsPair(g: Game)
    ensures PairSafe(DownloadPatch)
    ensures Merge(g, DownloadPatch) == g.(isDownloaded := true, size := Some(MockSize))
    ensures Paired(g) ==> Paired(Merge(g, DownloadPatch))
  {
    if Paired(g) {
      MergeKeepsPaired(g, DownloadPatch);
    }
  }

  /** After the download's update, a lookup of that id shows both fields set together. */
  lemma DownloadThenGet(gs: seq<Game>, id: string)
    requires HasId(gs, id)
    ensures Find(Updated(gs, id, DownloadPatch), id).Some?
    ensures Find(Updated(gs, id, DownloadPatch), id).value.isDownloaded
    ensures Find(Updated(gs, id, DownloadPatch), id).value.size == Some(MockSize)
  {
    FindAfterUpdate(gs, id, DownloadPatch);
  }

  class GameDownloader {
    /** The record the tab was rendered for. */
    const game: Game
    var status: GameStatus
    var progress: int
    var error: Option<string>
    /** Every value `progress` has been set to since the tab was created, in order. */
    ghost var shown: seq<int>
    /** Every value `status` has been set to since the tab was created, in order. */
    ghost var statuses: seq<GameStatus>

    /** The initial state: `success` when the record is already downloaded. */
    constructor (game: Game)
      ensures this.game == game && progress == 0 && error == None && shown == [] && statuses == []
      ensures status == if game.isDownloaded then Success else Idle
    {
      this.game := game;
      status := if game.isDownloaded then Success else Idle;
      progress := 0;
      error := None;
      shown := [];
      statuses := [];
    }

    /**
     * `handleDownload`. Does nothing while a download is running anywhere. Otherwise
     * shows progress 0, 10, ..., then either makes exactly one store update and ends in
     * `success`, or (when the timer of step `failAt` rejects) ends in `error` with the
     * progress of the last completed step and no store update. The flag is cleared
     * on both paths.
     */
    method HandleDownload(store: Store, failAt: Option<nat>)
      modifies this`status, this`progress, this`error, this`shown, this`statuses, store
      ensures old(store.isDownloading) ==>
                unchanged(this) && unchanged(store)
      ensures !old(store.isDownloading) ==>
                && !store.isDownloading && store.flagWrites == old(store.flagWrites) + [true, false]
                && statuses == old(statuses) + [Downloading, status]
                && shown == old(shown) + [0] + Ticks(Reached(failAt))
                && progress == Reached(failAt) * 10
      ensures !old(store.isDownloading) && !Fails(failAt) ==>
                && status == Success && error == None
                && store.games == Updated(old(store.games), game.id, DownloadPatch)
                && store.updates == old(store.updates) + [(game.id, DownloadPatch)]
      ensures !old(store.isDownloading) && Fails(failAt) ==>
                && status == Error && error == Some(DownloadError)
                && store.games == old(store.games) && store.updates == old(store.updates)
    {
      if store.isDownloading {
        return;
      }
      store.SetIsDownloading(true);
      status := Downloading;
      statuses := statuses + [Downloading];
      progress := 0;
      shown := shown + [0];
      error := None;

      var i := 1;
      while i <= Steps && failAt != Some(i)
        invariant 1 <= i <= Steps + 1
        invariant forall j :: 1 <= j < i ==> failAt != Some(j)
        invariant status == Downloading && error == None && statuses == old(statuses) + [Downloading]
        invariant progress == (i - 1) * 10
        invariant shown == old(shown) + [0] + Ticks(i - 1)
        invariant store.isDownloading && store.flagWrites == old(store.flagWrites) + [true]
        invariant store.games == old(store.games) && store.updates == old(store.updates)
      {
        progress := i * 10;
        shown := shown + [progress];
        i := i + 1;
      }

      if i <= Steps {
        // the timer of step i rejected: the catch branch
        status := Error;
        statuses := statuses + [Error];
        error := Some(DownloadError);
      } else {
        store.UpdateGame(game.id, DownloadPatch);
        status := Success;
        statuses := statuses + [Success];
      }
      store.SetIsDownloading(false);
    }
  }
}
