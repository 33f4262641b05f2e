# rbr-sync in Dafny

A model of rbr-sync, a small desktop tool. It downloads a tagged list of
rally stages from a Notion database and writes the user's chosen stages into
the favourites file of the Richard Burns Rally mod "RallySimFans". The model
has two parts.

**The sync library** (`rbr-sync-lib/src/lib.rs`) has these pieces:

- the error type;
- the response classifier `deserialize_successful_response`;
- the cursor-driven pager `database::query`;
- the one-field fetch `page::property`;
- the entry point `stages`. It checks the token, pages through the database,
  fetches three fields (ID, Name, Tags) for every record, assembles each
  `Stage`, and joins the records fail-fast.

**The application logic** (`src/main.rs`) has these pieces:

- the `RbrSync` state as a class;
- the include/exclude tag filter with its sort by title (`filtered_stages`);
- the sorted list of distinct tags;
- the three-state tag toggle;
- the fetch and receive transitions of `fetching` and `stages`;
- what `write_stages` puts in the favourites INI document;
- how `favorites_file` turns the output of `reg query` into a path.

Files and modules:

- `wrappers.dfy` (`Wrappers`): `Option` and `Result`.
- `http.dfy` (`Http`): `AppError`, the raw response, and `Classify`.
- `database.dfy` (`Database`): the pager, its specification functions and its lemmas.
- `page.dfy` (`Page`): the field shapes and `Property`.
- `sync.dfy` (`Sync`): `Stage`, per-record assembly, `JoinAll`, `Stages`, and the worked examples.
- `text.dfy` (`Text`): the string operations the application relies on. These are `str` ordering, `split(..).last()`, `trim()` and `i32::to_string()`.
- `app.dfy` (`App`): the filter, the tags, the toggle and the `RbrSync` class.
- `favorites.dfy` (`Favorites`): `write_stages` and `favorites_file`.

How the outside world is modelled:

- **The server.** A `Remote` value stands for it.
  - The k-th query request of a database gets the k-th entry of a script.
  - A field request for (field, record) gets a fixed answer.
  - Whether the HTTP client can be built is a flag.
  - Every answer is an `Exchange`: a response (status and body text, or a failed body read) or a transport error.
- **JSON decoding.** It is a set of parameters `string -> Option<T>`, one per response shape (`Parsers`).
- **The token check.** `HeaderValue::from_str` is the parameter `validHeaderValue`. It is applied to `"Bearer " + token`.
- **The platform and the registry.** `favorites_file` takes the platform as a boolean and the output of `reg query` as a string.
- **The favourites file.** The document read from disk is an `Option<Ini>`. `None` means the load failed. `WriteStages` returns the document it would write.
- **The channel.** What the spawned fetch delivers to the GUI is `Delivered(outcome)`.

A few facts about the code that the model keeps:

- A stage's `tags` are the ordered `Vec` of option names.
- The errors keep the code's names, including the misspelt `DeserizalizationError`. The others are `WrongResponseCode`, `WrongToken`, `WrongUrl` and `HttpError`.
- An empty title list panics at the `unwrap` (rbr-sync-lib/src/lib.rs:173). So `TitlePresent` and `WellBehaved` exclude it, and only on the path that pages.

## Model

| member | source | states |
|---|---|---|
| `Http.Classify` | rbr-sync-lib/src/lib.rs:127-138 | A failed body read gives `HttpError`. A non-2xx status gives `WrongResponseCode(status, body)` with the body verbatim. A 2xx status gives the parsed value exactly when parsing succeeds, and `DeserizalizationError` otherwise. |
| `Http.Fetch` | rbr-sync-lib/src/lib.rs:61-67 | A request that fails in transport (`send().await?`) gives that error unchanged. A response goes through the classifier. |
| `Page.Property` | rbr-sync-lib/src/lib.rs:112-124 | A field fetch passes a URL or transport error on unchanged and otherwise classifies the response. |
| `Database.CursorBody` | rbr-sync-lib/src/lib.rs:56-59 | A query body has the key `start_cursor` exactly when a cursor exists, holds exactly that cursor, and has no other key. |
| `Database.StopIndex` | rbr-sync-lib/src/lib.rs:55-72 | The loop stops at the first response that is an error or a page with `has_more` false. Every earlier response is a page with `has_more` true. |
| `Database.RequestBodies` | rbr-sync-lib/src/lib.rs:53-71 | One body per request, up to and including the stopping one. The first body is empty. Each later body has `start_cursor` exactly when the previous page's `next_cursor` was `Some`, and then holds that value. |
| `Database.Query` | rbr-sync-lib/src/lib.rs:46-75 | The `while has_more` loop returns `Paginate`: the stopping response's error, or the entries of all pages up to it. It also returns the bodies it sent, which are exactly `RequestBodies`. |
| `Database.PaginateConcatenatesPages` | rbr-sync-lib/src/lib.rs:51-74 | Suppose pages have `has_more` true on all but the last. Then the pager sends one request per page and returns the concatenation of their entries, in page order and within-page order. |
| `Database.SinglePage` | rbr-sync-lib/src/lib.rs:52-74 | A first page with `has_more` false is the whole result, after exactly one request with an empty body. |
| `Database.FailureAborts` | rbr-sync-lib/src/lib.rs:61-67 | A failure after any number of pages is the result, with no partial list. Exactly one request is sent per page plus the failed one. |
| `Database.FlattenIsConcat` | rbr-sync-lib/src/lib.rs:69 | Extending the accumulator page by page yields the concatenation of the pages' entries. |
| `Sync.TagNames` | rbr-sync-lib/src/lib.rs:174 | The tags are the `multi_select` names, same length, same order. |
| `Sync.AssembleStage` | rbr-sync-lib/src/lib.rs:170-179 | There is a stage exactly when all three fetches succeed. Its id is the number, its title is the first title segment's `plain_text`, and its tags are the names in order. Otherwise the ID error wins, then the Name error, then the Tags error. |
| `Sync.RecordOutcome` | rbr-sync-lib/src/lib.rs:165-179 | One record's `ID`, `Name` and `Tags` fetches (`NumberOf`, `TitleOf`, `TagsOf`, lines 166-168) give a stage exactly when all three succeed. Its id is the number, its title is the first title segment's text, and its tags are the names. Otherwise the ID error wins, then the Name error, then the Tags error. |
| `Sync.JoinAll` | rbr-sync-lib/src/lib.rs:181 | The join succeeds exactly when every element does. On success the values keep their order and length. On failure the error is some element's error. |
| `Sync.SyncRecords` | rbr-sync-lib/src/lib.rs:165-181 | The fan-out over the pager's entries succeeds exactly when every record does. It gives one stage per entry, in entry order. On failure the error is some record's error. |
| `Sync.Stages` | rbr-sync-lib/src/lib.rs:147-182 | `stages` returns `Synchronize`. That is `WrongToken` for an invalid header value, `HttpError` when the client cannot be built, the pager's error, or the fail-fast join over the pager's entries. No query is sent when it fails before paging. The server only has to stop paging and have titles when the token is valid and the client builds. |
| `Sync.TokenCheckedFirst` | rbr-sync-lib/src/lib.rs:155-158 | An invalid token gives `WrongToken` whatever the server would answer, even a server that never stops paging. No query is sent. |
| `Sync.ClientCheckedBeforeQuery` | rbr-sync-lib/src/lib.rs:160-162 | A valid token with a client that cannot be built gives `HttpError` whatever the server would answer. No query is sent. |
| `Sync.StagesFollowEntries` | rbr-sync-lib/src/lib.rs:164-181 | When paging succeeds, the call succeeds exactly when every record does. The stages then correspond one to one, in order, to the pager's entries. |
| `Sync.ExampleSync` | rbr-sync-lib/src/lib.rs:147-181 | One page with record `rec1`, whose fields are 7, "Rallye" and ["gravel", "night"], gives exactly `[Stage(7, "Rallye", ["gravel", "night"])]` after one query with an empty body. |
| `Sync.ExampleSyncRefused` | rbr-sync-lib/src/lib.rs:170-178 | The same record whose Tags request gets 401 "unauthorized" gives `WrongResponseCode(401, "unauthorized")` and no stages. |
| `App.Kept` | src/main.rs:155-164 | The two filters keep each stage with an included tag and no excluded tag, as often as it occurs, and drop every other stage. |
| `App.SortByTitle` | src/main.rs:165 | Sorting by title gives a permutation of its input that is non-decreasing in `str` order. |
| `App.InsertByTitleSorted` | src/main.rs:165 | Inserting a stage by title into a sorted list keeps it sorted. |
| `App.RbrSync.FilteredStages` | src/main.rs:154-167 | A stage is listed exactly when it is a stored stage with an included tag and no excluded tag. The list is a permutation of the kept stages, non-decreasing by title, and empty when no tag is included. |
| `App.SortDistinct` | src/main.rs:257-260 | Collecting into a set and sorting gives a strictly ascending list, so no duplicates, with exactly the input's elements. |
| `App.AllTags` | src/main.rs:256 | The `flat_map` holds exactly the tags that occur in some stage. |
| `App.RbrSync.UniqueTags` | src/main.rs:253-260 | `unique_tags` is strictly ascending and holds exactly the tags of the stored stages. |
| `App.Toggle` | src/main.rs:271-278 | A click moves the tag from neutral to included to excluded and back to neutral. No other tag's membership changes, and disjoint include and exclude sets stay disjoint. |
| `App.ThreeClicksRestore` | src/main.rs:271-278 | Three clicks on a tag restore both sets, unless the tag was in both. |
| `App.RbrSync.ClickTag` | src/main.rs:271-278 | The click handler updates the two set fields exactly as `Toggle` says. |
| `App.RbrSync.ClickFetch` | src/main.rs:214-216 | "Fetch tags" sets `fetching` and empties `stages`. |
| `App.RbrSync.Receive` | src/main.rs:103-106 | A list received on the channel clears `fetching` and replaces `stages`. With nothing received, both are unchanged. |
| `App.Delivered` | src/main.rs:331-340 | The spawned fetch sends the list exactly when `stages` succeeded. On an error its `expect` panics and nothing is sent. |
| `App.FetchAndReceive` | src/main.rs:214-222 | "Fetch tags" runs `stages` on the app's own token and collection id, then delivers the outcome as in main.rs:331-340. A success shows exactly the list `Synchronize` gives and clears `fetching`. A failure leaves `fetching` set and the list empty. |
| `App.RbrSync.constructor` | src/main.rs:73-95 | The default state: empty token, database id, stages and tag sets, not fetching, and the favourites path given. |
| `Favorites.WriteStages` | src/main.rs:343-351 | Every section other than `FavoriteStages` is as read, or absent when the load failed. `FavoriteStages` exists exactly when some stage is filtered. Its keys are exactly the `id.to_string()` of the filtered stages, each with value `"f"`. |
| `Favorites.SetFavorites` | src/main.rs:347-351 | The loop over the stages sets `<id> = f` in `FavoriteStages`, creates the section only if some stage exists, and touches no other section. |
| `Favorites.IdKeysAppend` | src/main.rs:350 | Writing one more stage adds exactly its `id.to_string()` key. |
| `Favorites.OneKeyPerId` | src/main.rs:347-351 | There are exactly as many keys as distinct ids, and an id is among the stages exactly when its text is a key. |
| `Text.IntToStringRoundTrip` | src/main.rs:350 | Reading back the decimal text of an `i32` gives the number, so distinct ids give distinct keys. |
| `Favorites.FavoritesFile` | src/main.rs:120-143 | Off Windows the path is exactly `favorites.ini`. On Windows it ends with `\rsfdata\cache\favorites.ini`. |
| `Favorites.InstallPathFromRegistry` | src/main.rs:133-142 | On Windows the path is a slice of the registry output followed by the cache path. The slice has no `REG_SZ` and no blank at either end. Only blanks follow it. When `REG_SZ` occurs, only blanks separate the slice from the last occurrence, and nothing after that occurrence contains `REG_SZ`. |
| `Text.SplitJoin` | src/main.rs:134 | Joining the pieces of `split(sep)` with `sep` gives back the string. |
| `Text.SplitPiecesFree` | src/main.rs:134 | No piece of `split(sep)` contains `sep`. |
| `Text.LastPieceIsSuffix` | src/main.rs:134-136 | `split(sep).last()` always exists. It is a suffix without `sep`. It is the whole string when `sep` does not occur, and is otherwise preceded by `sep`. |
| `Text.Trim` | src/main.rs:137 | `trim()` is the slice between the leading and the trailing Unicode whitespace. It neither starts nor ends with whitespace. |
| `Text.StrLeTotal` | src/main.rs:165 | `str` order is total, which the sort relies on. |
| `Text.StrLeTransitive` | src/main.rs:165 | `str` order is transitive. |

## Left out

- HTTP, TLS, URL joining and header construction (rbr-sync-lib/src/lib.rs:148-162) are foreign library calls. They appear only through what they can produce:
  - a transport or URL error inside an `Exchange`;
  - the `clientBuilds` flag;
  - the header-validity parameter.
- The base URL `Url::parse` of a constant literal always succeeds and is not modelled.
- serde/serde_json are abstract `Parsers`. The diagnostics carried by `WrongUrl`, `HttpError` and `DeserizalizationError` are dropped.
- `Sync.JoinAll`: the fan-out is sequential here. It reports the first failing record in entry order. Under `try_join_all`, which concurrent error wins is unspecified, so the contract only promises some record's error.
- Asynchrony, the tokio runtime, the `mpsc` channel and `request_repaint` are abstracted. The channel is the `Option` that `Receive` gets.
- `Sync.AssembleStage`: an empty title list among three successful fetches panics in the source. The model excludes that input by a precondition instead of modelling the panic.
- Pager termination is a precondition (`EventuallyStops`): the scripted server eventually fails or answers `has_more` false. A server that never does would make the source loop forever. `stages` needs it only once the token and the client have passed their checks.
- The scripted server answers by request number, not by the cursor in the body. The link between cursor and page is stated through the bodies the pager sends.
- `App.SortByTitle`: `sort_by` is stable. The insertion sort used here is stable too, but the contract does not state stability.
- The INI document is an unordered map, so the order of sections and keys that `rust-ini` keeps is not modelled. Reading and writing the file, the `" = "` separator and the final `unwrap` are I/O.
- Running `reg query`, its UTF-8 decoding (`from_utf8(..).expect`) and the platform test are inputs of `FavoritesFile`.
- egui/eframe rendering, the widgets in `src/widgets.rs`, the token visibility toggle, the spinner and the table are UI. eframe storage save and restore is persistence, and `build.rs` is build-time only.
- The `Display` strings of `AppError` are not modelled. The one for `WrongResponseCode` (rbr-sync-lib/src/lib.rs:21) prints the status twice and never the body.
