/**
 * The home page's `handleGameSubmit`: build a new record from a submitted URL (title
 * from the hostname, a placeholder thumbnail keyed by the new id) and append it to the
 * store. The id generator, the clock and the URL parser are inputs.
 */
module HomePage {
  import opened Wrappers
  import opened GameTypes
  import opened GameStore
  import opened UrlForm

  /** `host.split('.')[0]`: the text before the first dot, or all of it. */
  function FirstLabel(host: string): (r: string)
    ensures |r| <= |host| && r == host[..|r|]
    ensures '.' !in r
    ensures |r| < |host| ==> host[|r|] == '.'
  {
    if host == [] || host[0] == '.' then [] else [host[0]] + FirstLabel(host[1..])
  }

  /** `toUpperCase` on one character, over ASCII. */
  function UpperChar(c: char): char {
    if 'a' <= c <= 'z' then (c as int - 32) as char else c
  }

  /** `s.charAt(0).toUpperCase() + s.slice(1)`: the length is kept, only the first character
      may change, and it becomes its upper-case form. */
  function Capitalize(s: string): (r: string)
    ensures |r| == |s|
    ensures s != [] ==> r[0] == UpperChar(s[0])
    ensures forall i :: 0 < i < |s| ==> r[i] == s[i]
  {
    if s == [] then [] else [UpperChar(s[0])] + s[1..]
  }

  /** The title: empty exactly when the hostname is empty or starts with a dot, never longer
      than the hostname, and led by the hostname's first character upper-cased. */
  function TitleFromHost(host: string): (r: string)
    ensures r == [] <==> host == [] || host[0] == '.'
    ensures |r| <= |host|
    ensures r != [] ==> r[0] == UpperChar(host[0])
  {
    Capitalize(FirstLabel(host))
  }

  /** The description: a fixed sentence that ends with the whole hostname. */
  function Description(host: string): (r: string)
    ensures |r| == 16 + |host| && r[..16] == "A web game from " && r[16..] == host
  {
    "A web game from " + host
  }

  /** The placeholder image: the picsum seed address with the id as seed, at 800 by 600. */
  function Thumbnail(id: string): (r: string)
    ensures |r| == 27 + |id| + 8
    ensures r[..27] == "https://picsum.photos/seed/"
    ensures r[27..27 + |id|] == id && r[27 + |id|..] == "/800/600"
  {
    "https://picsum.photos/seed/" + id + "/800/600"
  }

  /** The route the page navigates to. */
  function GameRoute(id: string): (r: string)
    ensures |r| == 6 + |id| && r[..6] == "/game/" && r[6..] == id
  {
    "/game/" + id
  }

  /** The record `handleGameSubmit` passes to `addGame`. */
  function NewGame(id: string, url: string, host: string, now: Timestamp): (r: Game)
    ensures r.id == id && r.url == url && r.dateAdded == now
    ensures r.title == TitleFromHost(host) && r.description == Description(host) && r.thumbnail == Thumbnail(id)
    ensures !r.isDownloaded && !r.isHosted && r.playCount == 0 && r.lastPlayed.None?
    ensures r.hostedUrl.None? && r.size.None? && r.category.None?
    ensures Paired(r)
  {
    Game(id, url, TitleFromHost(host), Description(host), Thumbnail(id), now, None,
         false, false, None, None, None, 0)
  }

  /** The title is the first hostname label with its first character upper-cased and the
      rest unchanged, so it has that label's length and holds no dot. */
  lemma TitleShape(host: string)
    ensures |TitleFromHost(host)| == |FirstLabel(host)|
    ensures FirstLabel(host) != [] ==>
              TitleFromHost(host)[0] == UpperChar(FirstLabel(host)[0]) &&
              TitleFromHost(host)[1..] == FirstLabel(host)[1..]
    ensures '.' !in TitleFromHost(host)
  {
    var first := FirstLabel(host);
    if first != [] {
      var t := TitleFromHost(host);
      forall i | 0 <= i < |t| ensures t[i] != '.' {
        if i > 0 {
          assert t[i] == first[i];
        }
      }
    }
  }

  /** A hostname made of a dot-free label, a dot and anything after has that label first. */
  lemma {:induction false} FirstLabelOfDotted(first: string, rest: string)
    requires '.' !in first
    ensures FirstLabel(first + "." + rest) == first
  {
    var host := first + "." + rest;
    if first == [] {
      assert host[0] == '.';
    } else {
      assert host[0] == first[0] && host[1..] == first[1..] + "." + rest;
      FirstLabelOfDotted(first[1..], rest);
    }
  }

  /** "example.com" gives the title "Example". */
  lemma TitleExample()
    ensures TitleFromHost("example.com") == "Example"
  {
    FirstLabelOfDotted("example", "com");
    assert "example" + "." + "com" == "example.com";
    assert Capitalize("example") == "Example" by {
      assert UpperChar('e') == 'E';
      assert "example"[1..] == "xample";
    }
  }

  /** Both the thumbnail and the route carry the record's own id, so each determines it. */
  lemma ThumbnailAndRouteCarryId(id: string, id': string)
    ensures Thumbnail(id)[27..27 + |id|] == id
    ensures GameRoute(id)[6..] == id
    ensures Thumbnail(id) == Thumbnail(id') ==> id == id'
    ensures GameRoute(id) == GameRoute(id') ==> id == id'
  {
    var pre := "https://picsum.photos/seed/";
    assert |pre| == 27;
    if Thumbnail(id) == Thumbnail(id') {
      assert |id| == |id'|;
      assert Thumbnail(id)[27..27 + |id|] == Thumbnail(id')[27..27 + |id'|];
    }
    if GameRoute(id) == GameRoute(id') {
      assert GameRoute(id)[6..] == GameRoute(id')[6..];
    }
  }

  /** A new record keeps the submitted URL, starts neither downloaded nor hosted, with no
      plays, and is found by its id when that id was fresh. */
  lemma AddThenGet(gs: seq<Game>, id: string, url: string, host: string, now: Timestamp)
    requires !HasId(gs, id)
    ensures var g := NewGame(id, url, host, now);
            && Find(gs + [g], id) == Some(g)
            && g.url == url && g.dateAdded == now
            && !g.isDownloaded && !g.isHosted && g.playCount == 0 && Paired(g)
  {
    FindAfterAdd(gs, NewGame(id, url, host, now));
  }

  class HomePage {
    var isProcessing: bool
    /** Every value written to `isProcessing`, in order: what the spinner showed. */
    ghost var processingWrites: seq<bool>

    constructor ()
      ensures !isProcessing && processingWrites == []
    {
      isProcessing := false;
      processingWrites := [];
    }

    /**
     * `handleGameSubmit(url)` with the fresh id `id` and the current time `now`. When the
     * parser yields a hostname, one record is appended and the page navigates to its
     * route; when it throws, the catch branch leaves the store alone. Either way
     * `isProcessing` is raised for the run and lowered again at the end.
     */
    method HandleGameSubmit(store: Store, url: string, parse: UrlParser, id: string, now: Timestamp)
      returns (route: Option<string>)
      modifies this`isProcessing, this`processingWrites, store`games
      ensures !isProcessing
      ensures processingWrites == old(processingWrites) + [true, false]
      ensures parse(url).Some? ==>
                && store.games == old(store.games) + [NewGame(id, url, parse(url).value.hostname, now)]
                && route == Some(GameRoute(id))
      ensures parse(url).None? ==> store.games == old(store.games) && route == None
    {
      isProcessing := true;
      processingWrites := processingWrites + [true];
      var parsed := parse(url);
      if parsed.Some? {
        store.AddGame(NewGame(id, url, parsed.value.hostname, now));
        route := Some(GameRoute(id));
      } else {
        route := None;
      }
      isProcessing := false;
      processingWrites := processingWrites + [false];
    }
  }
}
