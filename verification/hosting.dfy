/**
 * The hosting tab: a simulated hosting run that counts through ten steps and then
 * marks the record hosted at a mock address. Unlike the download flow it consults
 * no global flag.
 */
module Hosting {
  import opened Wrappers
  import opened GameTypes
  import opened GameStore
  import opened Progress

  const HostingError := "An error occurred during hosting. Please try again."

  /** `mockHostedUrl`. */
  function MockHostedUrl(id: string): (u: string)
    ensures |u| == |"https://gamevault.app/hosted/"| + |id|
    ensures u[..|"https://gamevault.app/hosted/"|] == "https://gamevault.app/hosted/"
    ensures u[|"https://gamevault.app/hosted/"|..] == id
  {
    "https://gamevault.app/hosted/" + id
  }

  /** Distinct ids get distinct addresses. */
  lemma MockHostedUrlInjective(a: string, b: string)
    ensures MockHostedUrl(a) == MockHostedUrl(b) ==> a == b
  {
  }

  /** `{ isHosted: true, hostedUrl: mockHostedUrl }`. */
  function HostPatch(id: string): (r: Patch)
    ensures PairSafe(r)
    ensures r.isHosted == Some(true) && r.hostedUrl == Some(MockHostedUrl(id))
    ensures r.(isHosted := None, hostedUrl := None) == EmptyPatch
  {
    EmptyPatch.(isHosted := Some(true), hostedUrl := Some(MockHostedUrl(id)))
  }

  /** `game.hostedUrl || mockHostedUrl`: an absent or empty address falls back to the mock one. */
  function DisplayedUrl(g: Game): (u: string)
    ensures g.hostedUrl.Some? && g.hostedUrl.value != "" ==> u == g.hostedUrl.value
    ensures g.hostedUrl.None? || g.hostedUrl.value == "" ==> u == MockHostedUrl(g.id)
    ensures u != ""
  {
    if g.hostedUrl.Some? && g.hostedUrl.value != "" then g.hostedUrl.value else MockHostedUrl(g.id)
  }

  /** The one store update of a hosting run sets both fields together and nothing else,
      and afterwards the tab shows the mock address. */
  lemma HostPatchSetsPair(g: Game)
    ensures PairSafe(HostPatch(g.id))
    ensures Merge(g, HostPatch(g.id)) == g.(isHosted := true, hostedUrl := Some(MockHostedUrl(g.id)))
    ensures DisplayedUrl(Merge(g, HostPatch(g.id))) == MockHostedUrl(g.id)
    ensures Paired(g) ==> Paired(Merge(g, HostPatch(g.id)))
  {
    if Paired(g) {
      MergeKeepsPaired(g, HostPatch(g.id));
    }
  }

  class GameHosting {
    /** The record the tab was rendered for. */
    const game: Game
    var status: GameStatus
    var progress: int
    var error: Option<string>
    /** Every value `progress` has been set to since the tab was created, in order. */
    ghost var shown: seq<int>
    /** Every value `status` has been set to since the tab was created, in order. */
    ghost var statuses: seq<GameStatus>

    /** The initial state: `success` when the record is already hosted. */
    constructor (game: Game)
      ensures this.game == game && progress == 0 && error == None && shown == [] && statuses == []
      ensures status == if game.isHosted then Success else Idle
    {
      this.game := game;
      status := if game.isHosted then Success else Idle;
      progress := 0;
      error := None;
      shown := [];
      statuses := [];
    }

    /**
     * `handleHostGame`. Shows progress 0, 10, ..., then either makes exactly one store
     * update and ends in `success`, or (when the timer of step `failAt` rejects) ends in
     * `error` with no store update. The store's `isDownloading` flag is neither read
     * nor written.
     */
    method HandleHostGame(store: Store, failAt: Option<nat>)
      modifies this`status, this`progress, this`error, this`shown, this`statuses, store`games, store`updates
      ensures statuses == old(statuses) + [Downloading, status]
      ensures shown == old(shown) + [0] + Ticks(Reached(failAt))
      ensures progress == Reached(failAt) * 10
      ensures !Fails(failAt) ==>
                && status == Success && error == None && progress == 100
                && store.games == Updated(old(store.games), game.id, HostPatch(game.id))
                && store.updates == old(store.updates) + [(game.id, HostPatch(game.id))]
      ensures Fails(failAt) ==>
                && status == Error && error == Some(HostingError)
                && store.games == old(store.games) && store.updates == old(store.updates)
    {
      status := Downloading;
      statuses := statuses + [Downloading];
      progress := 0;
      shown := shown + [0];
      error := None;

      var i := 1;
      while i <= Steps && failAt != Some(i)
        invariant 1 <= i <= Steps + 1
        invariant forall j :: 1 <= j < i ==> failAt != Some(j)
        invariant status == Downloading && error == None && statuses == old(statuses) + [Downloading]
        invariant progress == (i - 1) * 10
        invariant shown == old(shown) + [0] + Ticks(i - 1)
        invariant store.games == old(store.games) && store.updates == old(store.updates)
      {
        progress := i * 10;
        shown := shown + [progress];
        i := i + 1;
      }

      if i <= Steps {
        // the timer of step i rejected: the catch branch
        status := Error;
        statuses := statuses + [Error];
        error := Some(HostingError);
      } else {
        store.UpdateGame(game.id, HostPatch(game.id));
        status := Success;
        statuses := statuses + [Success];
      }
    }
  }
}
