/**
 * Clients of the components: a whole add, download, remove session on a fresh store,
 * and a rejected submission, each using only the components' contracts.
 */
module Scenarios {
  import opened Wrappers
  import opened GameTypes
  import opened GameStore
  import opened UrlForm
  import opened HomePage
  import opened Downloader

  const ExampleUrl := "https://example.com/game"

  /** Submit the example URL through the form and the home page on a fresh store. */
  method SubmitExample(parse: UrlParser, id: string, now: Timestamp) returns (store: Store)
    requires parse(ExampleUrl) == Some(ParsedUrl("https:", "example.com"))
    ensures fresh(store) && !store.isDownloading
    ensures store.games == [NewGame(id, ExampleUrl, "example.com", now)]
  {
    store := new Store([]);
    var form := new Form();
    form.SetUrl(ExampleUrl);
    ProtocolCheckIsPrefix(ExampleUrl, parse, "example.com");
    var submitted := form.HandleSubmit(parse);
    assert submitted == Some(ExampleUrl);
    var home := new HomePage();
    var route := home.HandleGameSubmit(store, ExampleUrl, parse, id, now);
  }

  /** Submit the example URL, download the new game, then remove it. */
  method AddDownloadRemove(parse: UrlParser, id: string, now: Timestamp)
    returns (added: Option<Game>, downloaded: Option<Game>, removed: Option<Game>)
    requires parse(ExampleUrl) == Some(ParsedUrl("https:", "example.com"))
    ensures added.Some? && added.value.url == ExampleUrl && added.value.title == "Example"
    ensures added.Some? && !added.value.isDownloaded && !added.value.isHosted && added.value.playCount == 0
    ensures downloaded.Some? && downloaded.value.isDownloaded && downloaded.value.size == Some(MockSize)
    ensures removed == None
  {
    var store := SubmitExample(parse, id, now);
    var g := NewGame(id, ExampleUrl, "example.com", now);
    AddThenGet([], id, ExampleUrl, "example.com", now);
    TitleExample();
    added := store.GetGame(id);

    var tab := new GameDownloader(g);
    tab.HandleDownload(store, None);
    DownloadThenGet([g], id);
    downloaded := store.GetGame(id);

    store.RemoveGame(id);
    removed := store.GetGame(id);
  }

  /** A submission the parser rejects shows the invalid-URL message and never reaches
      `onSubmit`, so no record is created. */
  method RejectedSubmission(parse: UrlParser, input: string)
    returns (message: Option<string>, submitted: Option<string>)
    requires input != "" && parse(input) == None
    ensures message == Some(InvalidError)
    ensures submitted == None
  {
    var form := new Form();
    form.SetUrl(input);
    submitted := form.HandleSubmit(parse);
    message := form.error;
  }
}
