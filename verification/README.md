# GameVault: a Dafny model of the game-record store and its clients

GameVault is a browser app that keeps a list of web-game records, lets the user add a
game by URL, browse the library with a search and a status filter, "download" and "host"
a game through progress-bar simulations, and play it. This project models the app's
sequential logic:

- `GameStore` (game_store.dfy): the context provider's `games` list with `addGame`,
  `removeGame`, `updateGame` and `getGame`, and the global `isDownloading` flag. The list
  operations are pure functions (`Without`, `Updated`, `Find`) and the class `Store`
  replaces its `games` field with them. Ghost logs record every
  `updateGame` call and every write to the flag, so the tasks can state how many updates
  and flag changes they made.
- `GameTypes` (game_types.dfy): the `Game` record, `GameStatus`, `Patch` (a
  `Partial<Game>`), and `Merge`, which models the object spread `{ ...game, ...patch }`.
- `Library` (library.dfy): the library page's `filteredGames` query. It applies an ASCII
  case-insensitive title search and a status filter (`all`, `downloaded`, `hosted`), then
  a stable sort by `dateAdded`, newest first.
- `Progress`, `Downloader`, `Hosting` (progress.dfy, downloader.dfy, hosting.dfy): the
  two simulated tasks. Each is a class holding `status`, `progress` and `error`. Each has
  a ten-step loop and makes one store update on success. Only the download consults the
  global guard.
- `UrlForm`, `HomePage`, `GameView` (url_form.dfy, home_page.dfy, game_view.dfy): URL
  validation, construction of the new record, the play action and the play-count bar.
- `Scenarios` (scenarios.dfy): client sessions built only on the components' contracts.
  `SubmitExample` is the shared first step: a URL submitted through the form and the home
  page. `AddDownloadRemove` continues it with a download and a removal, and
  `RejectedSubmission` is a submission the form turns away.

Inputs stand in for what the app takes from its environment:
- the id generator (`uuidv4`) and the clock (`new Date()`) are parameters `id` and `now`;
- the browser's `URL` parser is a parameter `parse: string -> Option<ParsedUrl>`;
- which timer step rejects, if any, is a parameter `failAt`;
- `dateAdded` and `lastPlayed` are integer timestamps. The app stores ISO-8601 strings
  of one format, and those order the same way as the instants they denote.

Three behaviours of the code that a reader might not expect, which the model keeps:
- `addGame` does not reject a duplicate id, although a store is often expected to. The
  list always grows by one, and `getGame` then returns the earlier record
  (`GameStore.FindAfterAdd`).
- From the error state the retry button calls the start handler again. So `error` leads
  straight back to `downloading`, not through `idle`.
- `updateGame` merges whatever keys the patch has, `id` included. Uniqueness of ids is
  therefore proved only for patches that do not rewrite the id.

## Model

| member | source | states |
|---|---|---|
| GameTypes.Merge | src/context/GameContext.tsx:60 | the merged record holds every value the patch carries and keeps every field the patch leaves out |
| GameTypes.FullPatch | src/pages/GameViewPage.tsx:32 | the spread `{ ...game }` carries every value the record holds: each required key present, each optional key present exactly when the record has the field; it is pair-safe exactly when the record is paired |
| GameTypes.MergeIsUnique | src/context/GameContext.tsx:60 | the merge is the only record that both agrees with the patch and keeps the other fields |
| GameTypes.MergeNoChangeIff | src/context/GameContext.tsx:60 | a merge leaves a record unchanged if and only if the record already agrees with the patch |
| GameTypes.MergeLaws | src/context/GameContext.tsx:60 | merging the same patch twice is merging once; merging `{}` changes nothing |
| GameTypes.MergeKeepsPaired | src/context/GameContext.tsx:57-63 | a patch that never raises `isDownloaded`/`isHosted` without its companion field keeps a record's flag/field pairing |
| GameStore.Find | src/context/GameContext.tsx:65-67 | the result is absent exactly when no record has the id; otherwise it is a record with that id and no earlier record has the id |
| GameStore.Without | src/context/GameContext.tsx:53-55 | the list never grows and no record with the id is left |
| GameStore.WithoutCounts | src/context/GameContext.tsx:53-55 | every record with another id keeps its number of occurrences; records with the id occur zero times |
| GameStore.Updated | src/context/GameContext.tsx:57-63 | the length is kept; records with another id are untouched; records with the id are merged with the patch |
| GameStore.WithoutConcat | src/context/GameContext.tsx:53-55 | deletion distributes over concatenation, so the survivors keep their relative order |
| GameStore.WithoutAbsent | src/context/GameContext.tsx:53-55 | deleting an id that no record has leaves the list unchanged |
| GameStore.UpdatedAbsent | src/context/GameContext.tsx:57-63 | updating an id that no record has leaves the list unchanged |
| GameStore.UpdateAfterRemove | src/context/GameContext.tsx:53-67 | an update after a delete of the same id changes nothing, and a lookup still finds nothing |
| GameStore.FindAfterUpdate | src/context/GameContext.tsx:57-67 | after an update that keeps the id, a lookup finds the earlier first match merged with the patch, or still nothing |
| GameStore.FindAfterAdd | src/context/GameContext.tsx:49-67 | an appended record is found by its id if the id was fresh; otherwise the earlier record with that id is found |
| GameStore.FindAppend | src/context/GameContext.tsx:49-67 | a lookup after an append finds the old first match if there is one, else looks only at the appended record |
| GameStore.AddKeepsUniqueIff | src/context/GameContext.tsx:49-51 | appending keeps ids unique if and only if the new id is not already present |
| GameStore.RemoveKeepsUnique | src/context/GameContext.tsx:53-55 | deleting keeps ids unique |
| GameStore.UpdateKeepsUnique | src/context/GameContext.tsx:57-63 | an update whose patch does not rewrite the id keeps ids unique |
| GameStore.OperationsKeepPaired | src/context/GameContext.tsx:49-63 | append of a paired record, delete, and an update with a pair-safe patch keep every record paired |
| GameStore.Store.constructor | src/context/GameContext.tsx:29-42 | the store starts with the list last saved and with `isDownloading` false |
| GameStore.Store.AddGame | src/context/GameContext.tsx:49-51 | the record is appended at the end, the earlier records are unchanged and in order, and the length grows by exactly one |
| GameStore.Store.RemoveGame | src/context/GameContext.tsx:53-55 | the new list is the filtered one; no record has the id; for an absent id the list is unchanged |
| GameStore.Store.UpdateGame | src/context/GameContext.tsx:57-63 | the new list is the merged one, and exactly one update is logged |
| GameStore.Store.GetGame | src/context/GameContext.tsx:65-67 | a found record is the first in the list with the id; nothing is found exactly when no record has the id |
| GameStore.Store.SetIsDownloading | src/context/GameContext.tsx:30 | the global flag takes the given value, and the write is logged |
| Library.ToLower | src/pages/LibraryPage.tsx:17 | lower-casing keeps the length and maps each character by ASCII lower-casing |
| Library.Contains | src/pages/LibraryPage.tsx:17 | `includes`: the empty string is in every string, every string is in itself, and nothing longer than the string is in it |
| Library.MatchesSearch | src/pages/LibraryPage.tsx:17 | an empty term matches every title; a title equal to the term up to case matches |
| Library.MatchesStatus | src/pages/LibraryPage.tsx:22-23 | a record passes if and only if `downloaded` finds it downloaded and `hosted` finds it hosted (`all` passes everything) |
| Library.Select | src/pages/LibraryPage.tsx:14-26 | the filter never lengthens the list and every record it keeps passes both tests; its counts are stated by `Library.SelectCounts` and its order by `Library.SelectConcat` |
| Library.SelectCounts | src/pages/LibraryPage.tsx:14-26 | each record passing both tests keeps its multiplicity; every other record is dropped |
| Library.SelectConcat | src/pages/LibraryPage.tsx:14-26 | the filter keeps the stored order: filtering a concatenation is concatenating the filtered parts |
| Library.Insert | src/pages/LibraryPage.tsx:27 | the result holds the list's records plus the inserted one |
| Library.InsertKeepsOrder | src/pages/LibraryPage.tsx:27 | inserting into a newest-first list gives a newest-first list |
| Library.SortNewestFirst | src/pages/LibraryPage.tsx:27 | the sort gives a permutation of its input, ordered by `dateAdded` descending |
| Library.FilteredGames | src/pages/LibraryPage.tsx:13-28 | the result holds exactly the stored records that pass both tests, with their multiplicity, newest first |
| Library.FilteredSoundComplete | src/pages/LibraryPage.tsx:15-26 | a record is shown if and only if it is stored and passes both tests; a shown record's lower-cased title contains the lower-cased term; with `downloaded` or `hosted` the matching flag is set |
| Library.ShowAllIsPermutation | src/pages/LibraryPage.tsx:13-27 | with an empty term and filter `all`, the result is a permutation of the stored list |
| Library.InsertAddedAt | src/pages/LibraryPage.tsx:27 | insertion places the new record ahead of the list's records with the same date and keeps their order |
| Library.SortIsStable | src/pages/LibraryPage.tsx:27 | records added at the same instant keep their stored order |
| Library.SelectAddedAt | src/pages/LibraryPage.tsx:14-26 | taking the records of one instant commutes with the filter |
| Library.FilteredTiesKeepStoredOrder | src/pages/LibraryPage.tsx:13-28 | the shown records added at one instant are exactly the stored ones of that instant that pass both tests, in stored order |
| Library.SearchIgnoresCase | src/pages/LibraryPage.tsx:17 | lower-casing the title or the term does not change whether the search matches |
| Library.LowerIdempotent | src/pages/LibraryPage.tsx:17 | lower-casing twice is lower-casing once |
| Library.SearchExample | src/pages/LibraryPage.tsx:17 | the term "INVADERS" matches the title "Space Invaders" |
| Progress.Ticks | src/components/GameDownloader.tsx:28-31 | after n steps, n progress values have been set |
| Progress.Reached | src/components/GameDownloader.tsx:28-42 | a run completes at most ten steps, and all ten exactly when no step's timer rejects |
| Progress.TicksAt | src/components/GameDownloader.tsx:30 | step i+1 sets progress to (i+1)*10 |
| Progress.TicksShape | src/components/GameHosting.tsx:26-29 | progress strictly increases, stays within 10..100, and reaches 100 only at the tenth step |
| Downloader.DownloadPatchSetsPair | src/components/GameDownloader.tsx:34-37 | the download update sets `isDownloaded` and `size` together and no other field, and keeps a record paired |
| Downloader.DownloadThenGet | src/components/GameDownloader.tsx:34-37 | after the download update, a lookup of the id shows `isDownloaded` and the mock size together |
| Downloader.GameDownloader.constructor | src/components/GameDownloader.tsx:12-14 | the status starts as `success` if the record is downloaded, otherwise `idle`; progress 0; no error |
| Downloader.GameDownloader.HandleDownload | src/components/GameDownloader.tsx:16-47 | while the global flag is set, nothing changes. Otherwise the flag is set to true and then to false, exactly once each, and the status goes to `downloading` and then to its final value. Progress runs 0, 10, 20 and on. On success there is exactly one update setting both fields and the status becomes `success`. On a failing step the status becomes `error` with the message, progress stays at the last value and there is no update |
| Hosting.MockHostedUrl | src/components/GameHosting.tsx:17 | the address is the hosting prefix followed by the record's id |
| Hosting.MockHostedUrlInjective | src/components/GameHosting.tsx:17 | distinct ids give distinct mock addresses |
| Hosting.HostPatch | src/components/GameHosting.tsx:32-35 | the hosting update carries `isHosted: true` and the mock address and no other key, and it is pair-safe |
| Hosting.DisplayedUrl | src/components/GameHosting.tsx:129 | the shown address is the stored `hostedUrl` when non-empty, otherwise the mock address, and it is never empty |
| Hosting.HostPatchSetsPair | src/components/GameHosting.tsx:32-35 | the hosting update sets `isHosted` and `hostedUrl` together and no other field; afterwards the shown address is the mock one |
| Hosting.GameHosting.constructor | src/components/GameHosting.tsx:12-14 | the status starts as `success` if the record is hosted, otherwise `idle`; progress 0; no error |
| Hosting.GameHosting.HandleHostGame | src/components/GameHosting.tsx:19-43 | the status goes to `downloading` and then to its final value; progress runs 0, 10, 20 and on; the global flag is not written. On success there is exactly one update setting both fields, progress is 100 and the status is `success`. On a failing step the status is `error` with the hosting message and there is no update |
| UrlForm.StartsWith | src/components/UrlForm.tsx:25 | `startsWith`: the empty prefix and the string itself always match, and a match agrees with the prefix character by character |
| UrlForm.Validate | src/components/UrlForm.tsx:13-34 | submits if and only if the input is non-empty, parses and has an "http"-prefixed protocol, and then passes the input unchanged; each rejection carries its own message |
| UrlForm.ProtocolCheckIsPrefix | src/components/UrlForm.tsx:25-27 | "https:", "http:" and "httpx:" pass the protocol check; "ftp:" is rejected with the protocol message |
| UrlForm.Form.constructor | src/components/UrlForm.tsx:10-11 | the field starts empty with no error |
| UrlForm.Form.SetUrl | src/components/UrlForm.tsx:45 | the field holds the typed text |
| UrlForm.Form.HandleSubmit | src/components/UrlForm.tsx:13-34 | `onSubmit` is called (once, with the unmodified input) if and only if no error is left set; the error is the decision's message |
| HomePage.FirstLabel | src/pages/HomePage.tsx:31 | the label is the hostname's prefix up to (not including) the first dot, or all of it |
| HomePage.Capitalize | src/pages/HomePage.tsx:31 | the length is kept, only the first character may change, and it becomes its upper-case form; `HomePage.TitleShape` states the composed title |
| HomePage.TitleFromHost | src/pages/HomePage.tsx:31 | the title is empty exactly when the hostname is empty or starts with a dot, is no longer than the hostname, and starts with the hostname's first character upper-cased |
| HomePage.Description | src/pages/HomePage.tsx:32 | the description is the fixed sentence followed by the whole hostname |
| HomePage.Thumbnail | src/pages/HomePage.tsx:33 | the thumbnail is the picsum seed address with the new id as seed, at 800 by 600 |
| HomePage.GameRoute | src/pages/HomePage.tsx:41 | the route is `/game/` followed by the id |
| HomePage.NewGame | src/pages/HomePage.tsx:28-38 | the new record has the id, the URL, the title, description and thumbnail built from the hostname and id, the submission time; not downloaded, not hosted, no plays, no last play, no size, address or category; paired |
| HomePage.FirstLabelOfDotted | src/pages/HomePage.tsx:31 | a hostname made of a dot-free label, a dot and anything after has that label as its first part |
| HomePage.TitleShape | src/pages/HomePage.tsx:31 | the title has the first label's length, its first character upper-cased, the rest unchanged, and no dot |
| HomePage.TitleExample | src/pages/HomePage.tsx:26-31 | the hostname "example.com" gives the title "Example" |
| HomePage.ThumbnailAndRouteCarryId | src/pages/HomePage.tsx:25-41 | the thumbnail and the navigation route both embed the record's id, and each determines it |
| HomePage.AddThenGet | src/pages/HomePage.tsx:28-38 | the new record keeps the submitted URL, starts not downloaded, not hosted, with no plays, and is paired; with a fresh id, a lookup finds it |
| HomePage.HomePage.constructor | src/pages/HomePage.tsx:10 | `isProcessing` starts false |
| HomePage.HomePage.HandleGameSubmit | src/pages/HomePage.tsx:14-48 | with a parsed hostname, exactly the new record is appended and the route is its page; if parsing throws, the store is unchanged; `isProcessing` is set to true and then to false, exactly once each |
| GameView.PlayPatch | src/pages/GameViewPage.tsx:31-35 | the play update carries the snapshot's id and flags, one more play than the snapshot, and the new time; it is pair-safe exactly when the snapshot is paired |
| GameView.PlayUpdate | src/pages/GameViewPage.tsx:28-38 | playing adds one to the snapshot's count and stamps the time; on a fresh snapshot nothing else changes; on a stale one the snapshot's flags win |
| GameView.PlayFresh | src/pages/GameViewPage.tsx:28-38 | one play on a fresh snapshot leaves the stored record with one more play and the new time, and nothing else changed |
| GameView.PlayTwice | src/pages/GameViewPage.tsx:17-37 | two plays on refreshed snapshots add exactly two plays and leave the second time |
| GameView.BarWidth | src/pages/GameViewPage.tsx:241 | the width never exceeds 100, is non-negative for non-negative counts, is 100 exactly from ten plays, and is ten per play below that |
| GameView.GameViewPage.constructor | src/pages/GameViewPage.tsx:14-15 | the page's snapshot is the lookup of the route's id; not playing |
| GameView.GameViewPage.Refresh | src/pages/GameViewPage.tsx:17-22 | the snapshot is re-read from the store |
| GameView.GameViewPage.HandlePlayGame | src/pages/GameViewPage.tsx:24-38 | with no record nothing changes; otherwise the page plays and makes exactly one update keyed by the snapshot's id |
| Scenarios.SubmitExample | src/pages/HomePage.tsx:14-41 | submitting "https://example.com/game" through the form and the home page leaves exactly the new record in a fresh store |
| Scenarios.AddDownloadRemove | src/pages/HomePage.tsx:14-48 | submitting "https://example.com/game" adds a record titled "Example", neither downloaded nor hosted. A download then shows `isDownloaded` and the size. A removal leaves nothing to find |
| Scenarios.RejectedSubmission | src/components/UrlForm.tsx:23-33 | input the parser rejects gets the invalid-URL message and never reaches `onSubmit` |

## Left out

- Loading from and saving to `localStorage`, and the JSON parse and stringify (src/context/GameContext.tsx:33-47). These are browser storage and a JSON library. The store starts from the list last saved (`Store.constructor`), and a failed parse leaves the empty initial list.
- The awaited timers in the downloader, the hosting tab and the home page are not modelled. Each timer step of a task is one loop iteration, and the home page's delay is omitted.
- Interleaving of handlers. Each handler runs from start to finish as one step, so a second download started while one runs, and overlapping hosting runs, are not modelled. The `isDownloading` guard (src/components/GameDownloader.tsx:17-19) exists for that interleaving; in the model its branch is reached only when the flag is already set on entry.
- The `URL` constructor and hostname extraction: the parser is a parameter. The hostname shown on the game page (src/pages/GameViewPage.tsx:158) is display only.
- `uuidv4`, `new Date()`, `toISOString` and `toLocaleDateString` are random and clock sources. The id and the timestamp are parameters.
- Clipboard and `navigator.share` (src/components/GameHosting.tsx:45-56, 158-169), the play overlay iframe (src/pages/GameViewPage.tsx:43-63), and all markup and routing are browser APIs and UI.
- Case conversion covers ASCII only. JavaScript's full Unicode `toLowerCase`/`toUpperCase` can change a string's length, so `HomePage.TitleShape` holds for the ASCII model only.
- A `Partial<Game>` key that is present with the value `undefined` is not modelled. No caller builds one. A patch key is either absent or carries a value.
- React's rendering and closure capture are not modelled. Handlers read the current store state directly, not the value captured at the last render.
- src/pages/SettingsPage.tsx (storage wipe, theme, reload) is not part of this model.
