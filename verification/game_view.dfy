/**
 * The game page: the record looked up by the route's id, the play action that
 * bumps the play count and stamps the time, and the play-count bar.
 */
module GameView {
  import opened Wrappers
  import opened GameTypes
  import opened GameStore

  /** `{ ...game, playCount: game.playCount + 1, lastPlayed: now }`, built from the page's snapshot. */
  function PlayPatch(snapshot: Game, now: Timestamp): (r: Patch)
    ensures r.id == Some(snapshot.id) && r.playCount == Some(snapshot.playCount + 1) && r.lastPlayed == Some(now)
    ensures r.isDownloaded == Some(snapshot.isDownloaded) && r.isHosted == Some(snapshot.isHosted)
    ensures PairSafe(r) <==> Paired(snapshot)
  {
    FullPatch(snapshot).(playCount := Some(snapshot.playCount + 1), lastPlayed := Some(now))
  }

  /** Playing writes the whole snapshot back with one more play and the new time. On a fresh
      snapshot that is exactly the change; on a stale one the snapshot's flags and counter win
      over the stored ones. */
  lemma PlayUpdate(current: Game, snapshot: Game, now: Timestamp)
    ensures Merge(snapshot, PlayPatch(snapshot, now)) ==
            snapshot.(playCount := snapshot.playCount + 1, lastPlayed := Some(now))
    ensures var r := Merge(current, PlayPatch(snapshot, now));
            && r.id == snapshot.id && r.playCount == snapshot.playCount + 1 && r.lastPlayed == Some(now)
            && r.isDownloaded == snapshot.isDownloaded && r.isHosted == snapshot.isHosted
    ensures Paired(current) && Paired(snapshot) ==> Paired(Merge(current, PlayPatch(snapshot, now)))
  {
    if Paired(snapshot) && Paired(current) {
      MergeKeepsPaired(current, PlayPatch(snapshot, now));
    }
  }

  /** One play on a fresh snapshot: the stored record gains one play and the new time. */
  lemma PlayFresh(gs: seq<Game>, id: string, now: Timestamp)
    requires Find(gs, id).Some?
    ensures var s := Find(gs, id).value;
            Find(Updated(gs, id, PlayPatch(s, now)), id) ==
            Some(s.(playCount := s.playCount + 1, lastPlayed := Some(now)))
  {
    var s := Find(gs, id).value;
    assert s.id == id;
    FindAfterUpdate(gs, id, PlayPatch(s, now));
    PlayUpdate(s, s, now);
  }

  /** Two plays, each on the snapshot refreshed after the previous one, add exactly two plays
      and leave the time of the second. */
  lemma PlayTwice(gs: seq<Game>, id: string, t1: Timestamp, t2: Timestamp)
    requires Find(gs, id).Some?
    ensures var s0 := Find(gs, id).value;
            var gs1 := Updated(gs, id, PlayPatch(s0, t1));
            Find(gs1, id).Some? &&
            var s1 := Find(gs1, id).value;
            var gs2 := Updated(gs1, id, PlayPatch(s1, t2));
            Find(gs2, id) == Some(s0.(playCount := s0.playCount + 2, lastPlayed := Some(t2)))
  {
    PlayFresh(gs, id, t1);
    var gs1 := Updated(gs, id, PlayPatch(Find(gs, id).value, t1));
    PlayFresh(gs1, id, t2);
  }

  /** `Math.min(100, playCount * 10)`: the bar's width in percent. */
  function BarWidth(playCount: int): (w: int)
    ensures w <= 100
    ensures playCount >= 0 ==> w >= 0
    ensures w == 100 <==> playCount >= 10
    ensures playCount < 10 ==> w == playCount * 10
  {
    if playCount * 10 < 100 then playCount * 10 else 100
  }

  class GameViewPage {
    /** The route's id. */
    const id: string
    /** The page's snapshot of the record. */
    var game: Option<Game>
    var isPlaying: bool

    constructor (store: Store, id: string)
      ensures this.id == id && game == Find(store.games, id) && !isPlaying
    {
      this.id := id;
      game := store.GetGame(id);
      isPlaying := false;
    }

    /** The effect that re-reads the record after the store changes. */
    method Refresh(store: Store)
      modifies this`game
      ensures game == Find(store.games, id)
    {
      game := store.GetGame(id);
    }

    /**
     * `handlePlayGame`. With no record the page shows the not-found state, which has
     * no play control, so nothing changes; otherwise the page starts playing and makes
     * one update, keyed by the snapshot's own id.
     */
    method HandlePlayGame(store: Store, now: Timestamp)
      modifies this`isPlaying, store`games, store`updates
      ensures game.None? ==> isPlaying == old(isPlaying) && unchanged(store)
      ensures game.Some? ==>
                && isPlaying
                && store.games == Updated(old(store.games), game.value.id, PlayPatch(game.value, now))
                && store.updates == old(store.updates) + [(game.value.id, PlayPatch(game.value, now))]
    {
      if game.None? {
        return;
      }
      isPlaying := true;
      var snapshot := game.value;
      store.UpdateGame(snapshot.id, PlayPatch(snapshot, now));
    }
  }
}
