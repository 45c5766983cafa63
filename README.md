# MOD Dev Toolkit: a verified model of its core

MOD Dev Toolkit looks up Minecraft mods on the Modrinth registry and writes
the snippets a mod developer pastes into a build:

- a `build.gradle` dependency;
- a `mods.toml` or `fabric.mod.json` entry;
- a summary of the project.

This Dafny project models the three parts of the program that hold real logic:

- **`Versions`** (`versions.dfy`) models `ModrinthAPI.get_all_project_versions`.
  It merges a fetched version list into one record per version number.
  - A version number seen once keeps its record exactly as received.
  - For a version number seen more than once, the game-version and loader
    lists become the sorted union and the publication date the latest one.
    Every other field comes from the first occurrence.
  - The result is stably sorted newest first.

  There is a pure specification (`Group`, `SortByDate`, `Consolidate`) and an
  imperative method `ConsolidateVersions`. The method follows the source: a
  dictionary with insertion order, then an in-place insertion sort on an
  array. It is proved equal to the specification.
- **`Gui`** (`gui.dfy`) and **`Icons`** (`icons.dfy`) model the search window
  of `ModDependencyGUI`:
  - **Pagination** over `current_query`, `current_loader`, `current_offset`,
    `is_loading`, `has_more` and `search_results`. It is modelled both as pure
    transition functions and as the class `SearchWindow`, whose methods update
    those fields.
  - **The three-state image slot** of each result tile (`_image_set`,
    `_is_placeholder`), in the class `ItemFrame`.
  - **The icon address** `get_mod_icon_url`, and the address the icon worker
    resolves.
  - **The two-column grid placement.**

  A hit without `title` or `slug` makes `create_mod_item` raise `KeyError`
  once its tile is placed; the tile loop stops there, and the model returns
  that as the flag `raised`.

  The worker threads become completion methods:
  - `PageArrived` and `FetchRaised` finish a search request;
  - `ImageWorkerDone`, `SetItemImage` and `SetItemImageFailed` finish an icon
    download.
- **`Generator`** (`generator.py` → `generator.dfy`) models `ForgeDepGenerator`
  as pure string functions:
  - version selection;
  - dependency-type coercion;
  - the per-loader Gradle line;
  - `mods.toml` range defaults;
  - the Maven-to-Fabric range conversion;
  - config-mode dispatch;
  - `format_version_info`.

  The registry lookups become parameters: `None` for a project that could not
  be fetched, and the version list as fetched.

Two modules carry the Python semantics the model relies on:

- `Wrappers`: `Option` and Python truthiness of an optional string.
- `Text`: Python's string `<` (which is not Dafny's prefix order),
  `sorted(set(...))`, `str.strip`, `str.split`, `str.lower` on ASCII letters,
  `str.replace` of single characters, and `", ".join`.

## Model

| member | source | states |
|---|---|---|
| `Versions.ConsolidateVersions` | api.py:139-179 | The dictionary loop and the in-place sort return exactly `Consolidate(versions)`; an empty input gives an empty list. |
| `Versions.InsertNewestFirst` | api.py:174-177 | One insertion pass on the array: `a[..i+1]` becomes `InsertByDate(a[..i], a[i])`, and the rest of the array is unchanged. |
| `Versions.InsertByDateAt` | api.py:174-177 | When every record from position `j` on is strictly older than `x`, and the record before `j` is not, inserting `x` places it exactly at `j`. |
| `Versions.SortNewestFirst` | api.py:174-177 | The in-place sort leaves `SortByDate` of the old array contents. |
| `Versions.AbsorbHolds` | api.py:143-171 | Each loop step keeps the dictionary and its key order equal to the pure grouping: a keyless record is skipped, a new key is appended, and a known key is merged. |
| `Versions.AbsorbHoldsNew` | api.py:148-151 | A version number not yet in the dictionary is added to it, and its record is appended to the groups. |
| `Versions.AbsorbHoldsMerge` | api.py:152-171 | A version number already in the dictionary has its stored record replaced by the merge, at the same position. |
| `Versions.ConsolidateKeys` | api.py:143-151 | The output has exactly one record per distinct non-empty `version_number` of the input. Records without one are dropped. |
| `Versions.ConsolidateMerges` | api.py:149-171 | For each output record, let its group be the input records with the same version number. A single record is kept exactly as received. For several, `game_versions` and `loaders` are the strictly sorted union over the group. The date is the string maximum, absent counting as "". `id`, `version_type` and `changelog` come from the first occurrence. |
| `Versions.ConsolidateOrder` | api.py:174-177 | The output is newest first. Records with the same date keep the order in which their version numbers first occur. |
| `Versions.ConsolidateIdempotent` | api.py:139-179 | Consolidating a consolidated list returns it unchanged. |
| `Versions.Merge` | api.py:152-171 | Folding a later record into the stored one keeps the stored `id`, `version_number`, `version_type` and `changelog`. Both lists become strictly sorted, holding exactly the union of the two records' elements. The date is one of the two dates and is not earlier than either. |
| `Versions.Group` | api.py:143-174 | The dictionary's values: no more records than the input, none with an empty version number. |
| `Versions.Consolidate` | api.py:139-179 | An empty input gives an empty list. Otherwise the result is a reordering of the grouped records, so never longer than the input. |
| `Versions.GroupKeys` | api.py:143-151 | Grouping keeps one record per non-empty key, in first-occurrence order. |
| `Versions.GroupMerges` | api.py:149-171 | Each grouped record is the merge of all input records with its key, in input order. |
| `Versions.MergeAllLists` | api.py:155-165 | Merging two or more records gives strictly sorted lists whose elements are the union of the group's lists. |
| `Versions.MergeAllDate` | api.py:167-171 | The merged date is one of the group's dates, and none is later. |
| `Versions.MergeAllKeepsFirst` | api.py:151 | Merging keeps every field of the first record except the lists and the date. |
| `Versions.SortByDateNewestFirst` | api.py:174-177 | The sort specification yields a newest-first list. |
| `Versions.SortByDateStable` | api.py:174-177 | For every date, the records with that date keep their relative order: the sort is stable, as Python's is, `reverse=True` included. |
| `Versions.SortByDatePermutation` | api.py:174-177 | The sort is a permutation of its input. |
| `Versions.SortByDateOfSorted` | api.py:174-177 | Sorting a newest-first list changes nothing. |
| `Icons.NormalizeIconUrl` | gui.py:428-436 | An absolute `http://`/`https://` address is kept. Any other non-empty icon becomes an absolute address on `https://cdn.modrinth.com/` that ends with the icon. |
| `Icons.NormalizeLeadingSlash` | gui.py:433-436 | A relative icon `p` becomes exactly `https://cdn.modrinth.com/` followed by `p`, and `"/p"` gives the same address. |
| `Icons.NormalizeIdempotent` | gui.py:428-436 | Normalising an address twice is the same as once. |
| `Icons.FirstTruthy` | gui.py:439-440 | Python's `a or b or c`: the first truthy operand, else the last. |
| `Icons.ModIconUrl` | gui.py:422-440 | A truthy `icon_url` gives an absolute address, and an absolute one is returned unchanged. Otherwise the result is the first truthy of `slug`, `project_id`, `id`. The result is truthy iff one of the four is. |
| `Icons.ResolveIconUrl` | gui.py:473-493 | The worker fetches an absolute address as given. It looks any other value up as a project, and gets an address iff the project has a truthy icon. |
| `Icons.ResolveOfHitIcon` | gui.py:474-476 | When the hit names an icon, the worker fetches exactly the normalised icon and never consults the registry. |
| `Icons.ResolveAgreesWithHit` | gui.py:478-489 | An icon found by lookup is normalised as `get_mod_icon_url` would have normalised it on the hit. |
| `Icons.GridCell` | gui.py:447-448 | Item `index` goes to row `index // 2`, column `index % 2`: `2*row + col == index` with `col < 2`. |
| `Icons.GridCellInjective` | gui.py:447-448 | No two items share a cell. |
| `Icons.GridCellBelow` | gui.py:447-448 | Item `i + 2` is directly below item `i`. |
| `Gui.LoadMoreRequested` | gui.py:286-315 | A "load more" request starts a fetch iff the query is non-empty, nothing is loading and more results exist. Otherwise nothing changes. If it starts one, only `is_loading` is set. |
| `Gui.NewSearchRequested` | gui.py:296-315 | A new search starts iff the stripped entry is non-empty, and it does not look at `is_loading`. It sets the stripped query and the loader, offset 0, `has_more`, no results and `is_loading`. A blank entry changes nothing. |
| `Gui.SearchOutcome` | gui.py:284-315 | A search request changes nothing, or marks a fetch under way for a non-empty query with `has_more` set. "Load more" keeps the held results; a new search drops them. "Load more" never starts a second fetch while one is under way. |
| `Gui.ResultsAppended` | gui.py:372-399 | The hits are appended to the held results and the offset grows by their number. `is_loading` is cleared, query and loader are kept. `has_more` is taken over, except on an empty first page, which keeps it. |
| `Gui.PageReceived` | gui.py:320-332 | The worker's page is appended and `is_loading` cleared. With a consistent offset, more is announced exactly when fewer than `total` results are then held (an empty first page aside). |
| `Gui.FetchFailed` | gui.py:333-337 | A raised fetch clears `is_loading` and changes nothing else. |
| `Gui.ScrollChecked` | gui.py:777-796 | The scroll check starts a fetch iff the view is near the bottom and a query exists with no fetch under way and more to fetch. Otherwise nothing changes; if it does start one, only `is_loading` is set. |
| `Gui.ScrollMatchesLoadMore` | gui.py:777-796 | The scroll check starts a fetch iff the view is near the bottom and "load more" would start one; otherwise it changes nothing. |
| `Gui.BlankSearchRejected` | gui.py:298-301 | A new search is refused, with no change, exactly when every character of the entry is whitespace. |
| `Gui.StepsKeepConsistent` | gui.py:304-399 | Every request, append, page, failure and scroll step keeps `current_offset == len(search_results)`. |
| `Gui.PageReceivedAppends` | gui.py:326-399 | A page with hits, or any page after the first, appends the hits in order and grows the offset by their number. It clears `is_loading`. `has_more` becomes `offset < total`, which is the same as "fewer than `total` results held". Query and loader are unchanged. |
| `Gui.EmptyFirstPage` | gui.py:333-392 | An empty first page only clears `is_loading`, so `has_more` stays as it was. A raised fetch has the same effect. |
| `Gui.FortyFiveInPages` | gui.py:320-330 | Pages of 20, 20 and 5 against `total = 45` give 20, 40 and 45 results with `has_more` true, true, false. No further "load more" is started. |
| `Gui.OnImage` | gui.py:562-592 | An arriving image always leaves a real image shown: the new photo, unless a real one was already shown, which stays. |
| `Gui.OnFailed` | gui.py:594-625 | A failure leaves the slot set: an unset slot takes the placeholder, and any set slot is unchanged. |
| `Gui.SlotTransitions` | gui.py:562-625 | A failure never replaces a set image and turns an unset slot into the placeholder. An image replaces an unset or placeholder slot, never a real image. |
| `Gui.RealAbsorbing` | gui.py:569-576 | Once a real image is shown, no sequence of completions changes the slot. |
| `Gui.RunFromPlaceholder` | gui.py:569-587 | From the placeholder, the first image to arrive is shown for good. |
| `Gui.RunFromUnset` | gui.py:562-625 | From a fresh slot, the first arriving image is shown for good. With no image, any failure leaves the placeholder. With neither, the slot stays unset. |
| `Gui.WorkerEvent` | gui.py:499-520 | The worker delivers an image iff it had an address and the download gave a photo; otherwise it delivers the failure. |
| `Gui.TilesMade` | gui.py:405-407 | The number of tiles the loop places: all hits when every hit has `title` and `slug`. Otherwise every hit up to and including the first one lacking either key, since that one raises `KeyError` (gui.py:532, 537) after its tile is placed. |
| `Gui.TilesMadeStops` | gui.py:405-407 | A loop that stops after `n` hits, all complete but possibly the last, and stops early exactly when the last is incomplete, has made `TilesMade` tiles. It has met an incomplete hit exactly when the list holds one. |
| `Gui.TilesPlacedConcat` | gui.py:395-407 | Placed tiles followed by tiles made for positions `start_index + k` are placed again: each shows the result at its own position, in its own grid cell, in increasing order. |
| `Gui.TilesDenseAppend` | gui.py:395-407 | When every result has a tile at its own position, and each appended result gets one, that still holds after the append. |
| `Gui.ItemFrame.constructor` | gui.py:442-470 | A new tile holds its hit, sits in `GridCell(index)`, and starts with the slot unset. |
| `Gui.SearchWindow.constructor` | gui.py:33-43 | The window starts with no query, loader `neoforge`, offset 0, not loading, `has_more`, and no results, tiles or cache. |
| `Gui.SearchWindow.SearchMods` | gui.py:284-339 | The fields change as `LoadMoreRequested` or `NewSearchRequested` says, and a worker starts iff it says so. A started new search destroys the tiles and clears the image cache; anything else leaves them alone. Tiles stay placed. |
| `Gui.SearchWindow.LoadMore` | gui.py:287-295 | The "load more" half of `search_mods` changes the fields as `LoadMoreRequested` says, touching only `is_loading`. |
| `Gui.SearchWindow.NewSearch` | gui.py:296-315 | The new-search half changes the fields as `NewSearchRequested` says. A started search has no tiles and an empty cache; a refused one leaves both alone. |
| `Gui.SearchWindow.CreateModItem` | gui.py:442-537 | A fresh tile for the hit at position `index`, in `GridCell(index)`. A hit without address or identifier gets the placeholder at once and a cache entry; any other stays unset with the cache unchanged. `ok` is false exactly when the hit lacks `title` or `slug`, which raises `KeyError` in the source. |
| `Gui.SearchWindow.AppendSearchResults` | gui.py:372-420 | The fields change as `ResultsAppended` says, before any tile is made. The old tiles are kept and `TilesMade(results)` fresh tiles follow: the one made for hit `k` shows it at position `start_index + k`, in its grid cell. `raised` holds exactly when a hit lacks `title` or `slug`. Each new tile's slot is unset, or the placeholder when its hit has no address or identifier, and the cache gains exactly those placeholders. Tiles stay placed. Without a raise, every result has its tile. |
| `Gui.SearchWindow.AdvancePager` | gui.py:374-399 | The pagination fields change as `ResultsAppended` says, and no other field changes. |
| `Gui.SearchWindow.CreateModItems` | gui.py:405-407 | The tile loop makes `TilesMade(results)` fresh tiles, the one for hit `k` at position `start_index + k`. It reports a raise exactly when a hit is incomplete. The new tiles' slots and the cache follow `CreateModItem`, and the old tiles are kept. |
| `Gui.SearchWindow.PageArrived` | gui.py:320-332 | A worker result changes the fields as `PageReceived` says, with `has_more` taken from the offset before the append. The tiles, their slots, the raise and the cache change as `AppendSearchResults` states. |
| `Gui.SearchWindow.FetchRaised` | gui.py:333-337 | A worker exception clears `is_loading` and nothing else. |
| `Gui.SearchWindow.CheckScrollLoadMore` | gui.py:777-796 | The fields change as `ScrollChecked` says; tiles and cache are untouched. |
| `Gui.SearchWindow.SetItemImage` | gui.py:562-592 | The slot moves as `OnImage` says. The cache records the photo unless a real image was already shown. |
| `Gui.SearchWindow.SetItemImageFailed` | gui.py:594-625 | The slot moves as `OnFailed` says. Only an unset slot gets the placeholder and its cache entry. |
| `Gui.SearchWindow.ImageWorkerDone` | gui.py:473-523 | The icon worker and its callback move the slot by the event `WorkerEvent` derives from the resolved address and the download. The cache records the photo the slot then shows, as `SetItemImage` or `SetItemImageFailed` would. |
| `Generator.FindVersion` | generator.py:52-55 | The first position whose `version_number` equals the request, or none iff no record has it. |
| `Generator.SelectVersion` | generator.py:48-64 | The first version numbered `mod_version` when that is truthy and present; otherwise the newest, `versions[0]`. |
| `Generator.SelectedNumber` | generator.py:325-339 | The number shown in the summary and in the Fabric snippet is the requested number when it is available or when there are no versions. Otherwise it is the newest version's number. It is "未知" with neither versions nor request. |
| `Generator.CoerceDependencyType` | generator.py:66-69 | The type is kept if it is one of the four Gradle configurations, and otherwise becomes `implementation`. |
| `Generator.CoerceIdempotent` | generator.py:66-69 | Coercing twice is coercing once. |
| `Generator.Declaration` | generator.py:72-85 | A declaration starts with `TYPE `, and `fg.deobf(...)` adds exactly ten characters. |
| `Generator.DeclarationWrapped` | generator.py:72-85 | After `TYPE `, the coordinate is wrapped in `fg.deobf(` exactly when wrapping was asked for. |
| `Generator.GradleLinePlain` | generator.py:72-85 | For NeoForge and Fabric (any letter case), and for `compileOnly`/`runtimeOnly`, the line is `TYPE "maven.modrinth:SLUG:VER"`. |
| `Generator.GradleLineWrapped` | generator.py:72-85 | Any other loader wraps the coordinate of `implementation` and `api` in `fg.deobf(...)`. |
| `Generator.MinimalAgreesWithGradle` | generator.py:374-380 | For a valid type, the minimal line is the Gradle line without indentation iff the loader is Forge, NeoForge or Fabric or the type is never wrapped. |
| `Generator.GradleDependency` | generator.py:17-104 | A missing project and an empty version list each give their error line. Otherwise the snippet holds the Gradle line for the selected version and the coerced type. |
| `Generator.TomlVersionRange` | generator.py:186-192 | An explicit range is kept. Otherwise it is `[latest,)` with versions and `[0,)` without. |
| `Generator.ModsTomlDependency` | generator.py:182-203 | A missing project gives the error line. Otherwise the entry starts with the title and holds `mandatory = true/false` and the range line. |
| `Generator.FabricRange` | generator.py:258-276 | A range that starts with neither `[` nor `(` is untouched. |
| `Generator.MavenBare` | generator.py:258-265 | Removing the brackets from `[lo,hi)` leaves `lo,hi`. |
| `Generator.FabricBounds` | generator.py:271-276 | A non-empty lower bound gives a text starting `>=lo`, and `>=lo` alone when the upper bound is empty. An empty lower bound gives `<hi`. |
| `Generator.FabricRangeOfBare` | generator.py:258-276 | A bracketed range whose text without brackets is `lo,hi` converts to the Fabric text of the stripped `lo` and `hi`. |
| `Generator.MavenParts` | generator.py:258-276 | A two-part Maven range `open lo,hi close` converts to the Fabric text of its stripped bounds, whichever brackets it uses. |
| `Generator.MavenBothBounds` | generator.py:271-272 | `[a,b)` becomes `>=a <b`. |
| `Generator.MavenLowerBound` | generator.py:273-274 | `[a,)` becomes `>=a`. |
| `Generator.MavenUpperBound` | generator.py:275-276 | `(,b]` becomes `<b`. |
| `Generator.MavenNoBounds` | generator.py:266-276 | `[,)` becomes the bare `<`. |
| `Generator.BracketKindLost` | generator.py:258-276 | `[lo,hi]` and `(lo,hi)` convert to the same text: inclusive and exclusive bounds are not told apart. |
| `Generator.BracketNoComma` | generator.py:258-266 | A bracket range with no comma only loses its brackets. |
| `Generator.FabricVersionRange` | generator.py:232-254 | An explicit range is kept. Otherwise it is `>=selected` with versions and `*` without. |
| `Generator.DefaultRangesAgree` | generator.py:186-254 | With no request, the Fabric default equals the conversion of the `mods.toml` default `[latest,)`. |
| `Generator.LatestRangeToFabric` | generator.py:258-276 | `[latest,)` converts to `>=latest` for a plain, stripped, non-empty version number. |
| `Generator.FabricModJsonDependency` | generator.py:205-294 | A missing project gives the error line. Otherwise the snippet holds the same `"SLUG": "RANGE"` entry under `depends` and under `recommends`, with the converted range. |
| `Generator.MinimalDependency` | generator.py:359-380 | No versions gives the error line. Otherwise it is exactly `MinimalLine` for the selected version's number: it starts with the dependency type as given, not coerced, and wraps in `fg.deobf(` iff the loader is `forge` and the type is `implementation` or `api`. |
| `Generator.MinimalIsOneLine` | generator.py:374-380 | Minimal mode's output holds no line break unless its inputs do. |
| `Generator.InfoSection` | generator.py:341-357 | The summary starts with a rule and holds one line for each of: title, id, slug, description, client and server side, project page, game version (`任意` when absent), loader, selected number and dependency type. It ends with the mode line. |
| `Generator.FullDependencyInfo` | generator.py:296-451 | A missing project gives the error line. Minimal mode gives the minimal line. Every other mode starts with the summary naming that mode. |
| `Generator.SummaryThenSections` | generator.py:341-451 | Every mode but minimal is the summary followed by that mode's sections. |
| `Generator.GradleOnlyMode` | generator.py:382-392 | Gradle-only mode has the Gradle section alone. |
| `Generator.ConfigOnlyMode` | generator.py:394-410 | Config-only mode has the `fabric.mod.json` section for Fabric and the `mods.toml` section otherwise. |
| `Generator.FabricJsonMode` | generator.py:412-422 | Fabric-JSON mode has the `fabric.mod.json` section, whatever the loader. |
| `Generator.FullMode` | generator.py:424-451 | Full mode has the Gradle section, then `fabric.mod.json` for Fabric or `mods.toml` otherwise. |
| `Generator.UnknownModeIsFull` | generator.py:424-451 | Any mode the program does not know has the sections of full mode. |
| `Generator.GameVersionSummary` | generator.py:137-141 | Each of the first five game versions occurs in the text. Up to five are joined by `", "`. With more, the text starts with the first five joined, then ` 等`. |
| `Generator.GameVersionsTruncated` | generator.py:137-141 | With more than five, the text is the summary of the first five, ` 等`, the total and `个`. The characters between ` 等` and `个` are decimal digits denoting the number of game versions. |
| `Generator.ChangelogPreview` | generator.py:145-152 | A changelog of at most 100 characters is shown as is. A longer one shows its first 100 characters with newlines turned into spaces, followed by `...`: 103 characters, no newline. |
| `Generator.FormatVersionInfo` | generator.py:106-154 | The text starts with the line `版本号: N` (`未知` when absent). It holds the lines for the date (the formatted date, or `未知` when it is absent or empty), the type (`release` when absent), the game-version summary and the joined loaders. With a non-empty changelog it ends with the changelog line and its preview; otherwise it ends with the loaders line. |
| `Text.Split` | generator.py:267 | `str.split`: the parts hold no separator and joining them with it gives the input back. |
| `Text.SortedSet` | api.py:156-165 | `sorted(set(xs))`: strictly sorted, with the elements of `xs`. |

## Left out

- The HTTP layer is not part of this model: `requests`, `search_projects`, `get_project`, `get_project_versions` and their error branches. The fetched data are inputs. A failed search reaches the window as an empty page.
- Threads and `root.after` are not modelled. Their completions are sequential method calls. The program has no session token, so a completion from an earlier search applies to whatever state is current. Stale-result discard is therefore not a property of the model.
- Widgets, layout, message boxes, mouse-wheel handling, the status text and the detail-panel image are not modelled. The scroll-fraction test `bottom >= 0.9` is the boolean `nearBottom`.
- PIL decoding, resizing, placeholder drawing, and the retry loop with timeouts of `load_image_from_url` are not modelled. A photo is an opaque number, and a download gives "photo or none".
- `Gui.SearchWindow.SetItemImage`: in the source, an exception from Tk's `configure` falls back to `set_item_image_failed`, after `_photo_ref` has already been overwritten. The model has no failing widget, so it always records the image.
- `Gui.SearchWindow.ImageWorkerDone`: the source tests `hasattr(item_frame, 'img_label')` before it schedules anything. That test is always true, because the label is attached before the worker starts, so it is left out. The same holds for the tests at the head of `set_item_image` and `set_item_image_failed`.
- `Versions.VersionRecord` holds only the keys the core reads: `id`, `version_number`, `date_published`, `game_versions`, `loaders`, `version_type` and `changelog`. The registry's other fields (`name`, `files`, `dependencies`, `downloads` and the rest) are not represented. The source copies them along unchanged.
- `Gui.SearchWindow.CreateModItems`: the tiles are attached to `items` together when the loop ends, not one at a time. Nothing reads the results container during the loop, so the state after it is the same.
- `Gui.SearchWindow.SearchMods` is split into `LoadMore` and `NewSearch`, one per branch of `load_more`. `AppendSearchResults` has the pagination update as `AdvancePager`. The order of the updates is the source's.
- `Generator.FormatVersionInfo`: `datetime.fromisoformat` and `strftime` are a library call. They are the parameter `formatDate`, and that covers the fallback to the raw date on a parse error.
- The `print` warnings for an unmatched `mod_version` are not modelled. They do not affect any returned value.
- A record key read with `record["version_number"]` must be present: the source raises `KeyError` otherwise. That is the `SelectionNamed` and `LatestNamed` preconditions. JSON `null` values are not distinguished from absent keys.
- `Generator.FullDependencyInfo`: each nested generator asks the registry again. The model gives all of them the same project and version list.
- `Generator.ModsTomlDependency`: the source's `game_version`, `loader` and `mod_version` parameters only reach the registry call, or nothing. `Generator.FabricModJsonDependency`: its `mandatory` parameter is unused by the source.
- `Generator.FabricRange`: a bracket range with more than one comma only loses its brackets. There is no lemma for that case beyond the function itself.
- `Text.Lower` lowers ASCII letters only. Compared against `forge`, `fabric` and `neoforge` this decides the same as Python's `str.lower`.
- `Versions.SortNewestFirst`: an insertion sort stands in for Python's Timsort. Both are stable, so `SortByDate` is the result either way.
- `Icons.GridCell`: the widget's pixel sizes and padding are not modelled.
- Packaging scripts, the dependency checker and `main.py` are not part of this model. `models.py` only declares record shapes.
