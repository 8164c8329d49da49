/**
 * The game record, the status of a simulated task, and the partial record that
 * `updateGame` merges into a stored one (`{ ...game, ...updatedGame }`).
 */
module GameTypes {
  import opened Wrappers

  /** An instant as the app stores it (an ISO-8601 string); strings of that one
      format order exactly as the instants they denote, so an integer stands in. */
  type Timestamp = int

  datatype Game = Game(
    id: string,
    url: string,
    title: string,
    description: string,
    thumbnail: string,
    dateAdded: Timestamp,
    lastPlayed: Option<Timestamp>,
    isDownloaded: bool,
    isHosted: bool,
    hostedUrl: Option<string>,
    size: Option<string>,
    category: Option<string>,
    playCount: int)

  /** `downloading` is also the status of a hosting run in progress. */
  datatype GameStatus = Idle | Downloading | Error | Success

  /** `Partial<Game>`: a field is `Some` exactly when the object has that key. */
  datatype Patch = Patch(
    id: Option<string>,
    url: Option<string>,
    title: Option<string>,
    description: Option<string>,
    thumbnail: Option<string>,
    dateAdded: Option<Timestamp>,
    lastPlayed: Option<Timestamp>,
    isDownloaded: Option<bool>,
    isHosted: Option<bool>,
    hostedUrl: Option<string>,
    size: Option<string>,
    category: Option<string>,
    playCount: Option<int>)

  /** The object literal `{}`. */
  const EmptyPatch: Patch :=
    Patch(None, None, None, None, None, None, None, None, None, None, None, None, None)

  /** The spread of a whole record: every key the record has. The record already holds every
      value its spread carries, an optional key is present exactly when the record has that
      field, and the spread is pair-safe exactly when the record is paired. */
  function FullPatch(g: Game): (r: Patch)
    ensures Agrees(g, r)
    ensures r.id.Some? && r.url.Some? && r.title.Some? && r.description.Some? && r.thumbnail.Some?
    ensures r.dateAdded.Some? && r.isDownloaded.Some? && r.isHosted.Some? && r.playCount.Some?
    ensures r.lastPlayed.Some? <==> g.lastPlayed.Some?
    ensures r.hostedUrl.Some? <==> g.hostedUrl.Some?
    ensures r.size.Some? <==> g.size.Some?
    ensures r.category.Some? <==> g.category.Some?
    ensures PairSafe(r) <==> Paired(g)
  {
    Patch(Some(g.id), Some(g.url), Some(g.title), Some(g.description), Some(g.thumbnail),
          Some(g.dateAdded), g.lastPlayed, Some(g.isDownloaded), Some(g.isHosted),
          g.hostedUrl, g.size, g.category, Some(g.playCount))
  }

  /** `g` already holds every value that `p` carries. */
  predicate Agrees(g: Game, p: Patch) {
    && (p.id.Some? ==> g.id == p.id.value)
    && (p.url.Some? ==> g.url == p.url.value)
    && (p.title.Some? ==> g.title == p.title.value)
    && (p.description.Some? ==> g.description == p.description.value)
    && (p.thumbnail.Some? ==> g.thumbnail == p.thumbnail.value)
    && (p.dateAdded.Some? ==> g.dateAdded == p.dateAdded.value)
    && (p.lastPlayed.Some? ==> g.lastPlayed == p.lastPlayed)
    && (p.isDownloaded.Some? ==> g.isDownloaded == p.isDownloaded.value)
    && (p.isHosted.Some? ==> g.isHosted == p.isHosted.value)
    && (p.hostedUrl.Some? ==> g.hostedUrl == p.hostedUrl)
    && (p.size.Some? ==> g.size == p.size)
    && (p.category.Some? ==> g.category == p.category)
    && (p.playCount.Some? ==> g.playCount == p.playCount.value)
  }

  /** The fields `p` leaves out are equal in `g` and `h`. */
  predicate SameOutside(g: Game, h: Game, p: Patch) {
    && (p.id.None? ==> g.id == h.id)
    && (p.url.None? ==> g.url == h.url)
    && (p.title.None? ==> g.title == h.title)
    && (p.description.None? ==> g.description == h.description)
    && (p.thumbnail.None? ==> g.thumbnail == h.thumbnail)
    && (p.dateAdded.None? ==> g.dateAdded == h.dateAdded)
    && (p.lastPlayed.None? ==> g.lastPlayed == h.lastPlayed)
    && (p.isDownloaded.None? ==> g.isDownloaded == h.isDownloaded)
    && (p.isHosted.None? ==> g.isHosted == h.isHosted)
    && (p.hostedUrl.None? ==> g.hostedUrl == h.hostedUrl)
    && (p.size.None? ==> g.size == h.size)
    && (p.category.None? ==> g.category == h.category)
    && (p.playCount.None? ==> g.playCount == h.playCount)
  }

  /** The value a key of the patch contributes: its own when present, the target's otherwise. */
  function Pick<T>(key: Option<T>, kept: T): T {
    if key.Some? then key.value else kept
  }

  /** The same for an optional field, whose key carries the field's own optional value. */
  function PickOptional<T>(key: Option<T>, kept: Option<T>): Option<T> {
    if key.Some? then key else kept
  }

  /** `{ ...g, ...p }`: every key of `p` overrides, every other field is kept. */
  function Merge(g: Game, p: Patch): (r: Game)
    ensures Agrees(r, p)
    ensures SameOutside(g, r, p)
  {
    Game(Pick(p.id, g.id), Pick(p.url, g.url), Pick(p.title, g.title),
         Pick(p.description, g.description), Pick(p.thumbnail, g.thumbnail),
         Pick(p.dateAdded, g.dateAdded), PickOptional(p.lastPlayed, g.lastPlayed),
         Pick(p.isDownloaded, g.isDownloaded), Pick(p.isHosted, g.isHosted),
         PickOptional(p.hostedUrl, g.hostedUrl), PickOptional(p.size, g.size),
         PickOptional(p.category, g.category), Pick(p.playCount, g.playCount))
  }

  /** The merge is the only record that both agrees with the patch and keeps the other fields. */
  lemma MergeIsUnique(g: Game, p: Patch, h: Game)
    requires Agrees(h, p) && SameOutside(g, h, p)
    ensures h == Merge(g, p)
  {
    var m := Merge(g, p);
    assert h.id == m.id;
    assert h.url == m.url;
    assert h.title == m.title;
    assert h.description == m.description;
    assert h.thumbnail == m.thumbnail;
    assert h.dateAdded == m.dateAdded;
    assert h.lastPlayed == m.lastPlayed;
    assert h.isDownloaded == m.isDownloaded;
    assert h.isHosted == m.isHosted;
    assert h.hostedUrl == m.hostedUrl;
    assert h.size == m.size;
    assert h.category == m.category;
    assert h.playCount == m.playCount;
  }

  /** Merging changes nothing exactly when the record already agrees with the patch. */
  lemma MergeNoChangeIff(g: Game, p: Patch)
    ensures Merge(g, p) == g <==> Agrees(g, p)
  {
    if Agrees(g, p) {
      MergeIsUnique(g, p, g);
    }
  }

  /** Merging the same patch twice is merging it once, and `{}` changes nothing. */
  lemma MergeLaws(g: Game, p: Patch)
    ensures Merge(Merge(g, p), p) == Merge(g, p)
    ensures Merge(g, EmptyPatch) == g
  {
  }

  /** The pairing invariant: `isDownloaded` comes with a `size`, `isHosted` with a `hostedUrl`. */
  predicate Paired(g: Game) {
    (g.isDownloaded ==> g.size.Some?) && (g.isHosted ==> g.hostedUrl.Some?)
  }

  /** A patch that never raises a flag without also supplying its companion field. */
  predicate PairSafe(p: Patch) {
    (p.isDownloaded == Some(true) ==> p.size.Some?) && (p.isHosted == Some(true) ==> p.hostedUrl.Some?)
  }

  /** A pair-safe patch keeps a paired record paired. */
  lemma MergeKeepsPaired(g: Game, p: Patch)
    requires Paired(g) && PairSafe(p)
    ensures Paired(Merge(g, p))
  {
  }
}
