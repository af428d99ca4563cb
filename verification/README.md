# devs-developer, modelled in Dafny

devs-developer is a small browser catalogue of saved App Store developers. The user
finds a developer by searching app names or by pasting a store URL. Each saved
developer is kept with the date it was added and a list of free-form tags. The list
can be filtered by tag, sorted by name or date added, exported to JSON and imported
back. Opening a developer lists its apps, sorted by name or release date, each
with a rating summary.

This project is a functional model of that logic:
- the collection operations of the top-level component;
- the iTunes lookup client: id extraction from a URL, response classification,
  dispatch on the result type, and the software and artist filters;
- the developer list screen: the tag bar, tag filter, sorting, tag saving, the
  import shape check, and adding by search result or by URL;
- the tag editor;
- the app list's sorting and loading;
- the developer card: tag preview, icon fallback and delete confirmation;
- the tier choice of the rating-count formatter.

Every operation is a pure function over immutable datatypes. The outside world
enters as parameters:
- the network is a function `Request -> Transport`;
- `JSON.parse` is a partial function to `Option`;
- the clock is the `now` string;
- date parsing is `timeOf: string -> int`;
- `localeCompare` is an abstract total preorder `nameLe`;
- the user's answer to a confirmation prompt is a `bool`.

Modules, one per file of the app plus shared helpers:
- `Wrappers`: `Option`, `Result`.
- `Seqs`: an order-preserving filter and subsequences.
- `Strings`: `trim`, decimal digits, the default string order, replace-first.
- `Sorting`: a sort by key under a total preorder, in either direction.
- `Types`: the records of `types.ts`, and the JSON values of an import file.
- `ItunesService`, `Collection`, `DeveloperList`, `TagEditor`, `AppList`,
  `DeveloperCard`, `RatingCount`: the app's own files.

## Model

| member | source | states |
|---|---|---|
| Seqs.Filter | App.tsx:33 | `Array.filter`: an element is kept exactly when the predicate holds. A kept element occurs as often as in the input. The result is a subsequence of the input. |
| Strings.Trim | components/DeveloperTagEditModal.tsx:32 | `trim()`: the result is empty exactly when the input is all whitespace. Otherwise it starts and ends with a non-whitespace character. It is a slice of the input with only whitespace cut from either end. |
| Strings.TrimIdempotent | components/DeveloperTagEditModal.tsx:32-33 | A trimmed tag trims to itself, so the editor's duplicate check compares canonical forms. |
| Strings.NatToDecimal | components/common/DeveloperCard.tsx:60 | A count rendered in a template literal is a non-empty digit string, without a leading zero, that denotes the count. |
| Strings.IntToDecimal | services/itunesService.ts:98 | An id rendered in the lookup URL has a leading minus exactly for a negative id, and its digits denote the id's magnitude. It is the template rendering of a safe integer: the magnitude's digits without a leading zero, after a minus when negative. |
| Strings.ReplaceFirst | services/itunesService.ts:108 | `replace` with a string pattern: without an occurrence the string is kept. Otherwise only the leftmost occurrence is replaced. |
| ItunesService.HandleApiResponse | services/itunesService.ts:7-27 | The checks run in a fixed order. A non-ok status is the API error whatever the body. An ok response with an empty body is the empty-response error. A body that fails to parse is the parse error. Otherwise the parsed value is returned. |
| ItunesService.MessageIdentifiesError | services/itunesService.ts:11-78 | Each error the client throws carries its own message (lines 11, 17, 25, 36, 44, 52, 78), so two errors with the same message are the same error. |
| ItunesService.FetchData | services/itunesService.ts:29-39 | A transport failure is the network error, and only that is. A delivered response is classified as above. |
| ItunesService.ExtractId | services/itunesService.ts:42-46 | The id is `None` exactly when no `/id` is followed by a digit. Otherwise it is the maximal digit run after the leftmost such `/id`. |
| ItunesService.ExtractIdAfterPrefix | services/itunesService.ts:42-46 | A prefix with no match, then `/id`, then digits, then a non-digit or the end, yields exactly those digits. |
| ItunesService.ExtractIdOfDeveloperUrl | services/itunesService.ts:42-46 | A URL built from a developer id yields the same decimal string the app lookup for that id sends. |
| ItunesService.ExtractIdAt | services/itunesService.ts:42-46 | Given the leftmost match and the end of the digit run after it, the id is exactly that run. |
| ItunesService.ExtractIdExample | services/itunesService.ts:42-46 | `…/foo` + `/id123456789` yields `123456789`. |
| ItunesService.ExtractIdNoIdExample | services/itunesService.ts:42-45 | A store URL without `/id` yields nothing. |
| ItunesService.NoIdWithoutLetterD | services/itunesService.ts:42-45 | A URL without the letter `d` never matches. |
| ItunesService.SoftwareApps | services/itunesService.ts:91-93 | The software results, wrapped back as records, are exactly the order-preserving filter of all results on `wrapperType === 'software'`. |
| ItunesService.FirstSoftware | services/itunesService.ts:60-62 | `find`: nothing exactly when no result is software. Otherwise the app of the first software result. |
| ItunesService.RepresentativeIcon | services/itunesService.ts:60-67 | The artist's icon is `""` when no result is software. Otherwise it is the 100px artwork of the first software result. |
| ItunesService.DeveloperFromLookup | services/itunesService.ts:51-79 | `resultCount` 0 is not-found. A nonzero count with no results is an invalid response. An artist first result gives the artist's id, name and link, and the backfilled icon. A software first result gives the publisher's id, name and page, and the app artwork. Any other first result is an invalid response. |
| ItunesService.ArtistIconBackfill | services/itunesService.ts:58-68 | For an artist first result, the icon is the 100px artwork of the first software result, or `""` when there is none. |
| ItunesService.ResolveFromUrl | services/itunesService.ts:41-80 | No request is issued exactly when the URL has no id, and the result is then the invalid-URL error. Otherwise one lookup carries the extracted digits, and its outcome decides the result. |
| ItunesService.ResolveNotFound | services/itunesService.ts:51-53 | A delivered lookup with `resultCount` 0 ends in not-found, whatever its results hold. |
| ItunesService.SearchAppsByName | services/itunesService.ts:82-94 | No request is issued exactly for a blank or whitespace-only term, and the result is then `[]`. Otherwise one search carries the term with limit 20. The result is the software-tagged subsequence, or the fetch error. |
| ItunesService.WithLargeArtwork | services/itunesService.ts:106-109 | `artworkUrl512` is `artworkUrl100` with its first `100x100` replaced by `512x512`. Every other field is unchanged. |
| ItunesService.DeveloperApps | services/itunesService.ts:104-109 | The result corresponds position by position to the order-preserving filter on "software by this artist id", each app rewritten to large artwork. Every app has the requested artist id. |
| ItunesService.KeptAreSoftwareBy | services/itunesService.ts:105 | Everything the artist filter keeps is software published by that artist. |
| ItunesService.GetAppsByDeveloper | services/itunesService.ts:97-112 | Always exactly one lookup, for the id in decimal. Its failure is passed on; its success gives the developer's apps. |
| Collection.CountIdPositive | App.tsx:14 | `some(d => d.id === id)` holds exactly when the id's count in the list is positive. |
| Collection.UniqueIdsCountAtMostOne | App.tsx:14-20 | In a list with unique ids, every id occurs at most once. |
| Collection.AddDeveloper | App.tsx:13-22 | A present id leaves the state unchanged. An absent id puts a new record in front of the unchanged old list. The record copies id, name, url and icon, has empty tags and is stamped with `now`. Afterwards the id is present. |
| Collection.AddKeepsUniqueIds | App.tsx:14-20 | An add applied to the current list keeps its ids unique. |
| Collection.AddCount | App.tsx:14-20 | After an add, the id occurs once if it was absent, and as often as before otherwise. |
| Collection.AddTwice | App.tsx:14-20 | A second add of the same id changes nothing, whatever the list holds. |
| Collection.AddTwiceCount | App.tsx:14-20 | When the list held the id at most once, it holds it exactly once after two adds of it. |
| Collection.DeleteDeveloper | App.tsx:32-37 | Keeps exactly the developers with another id, each as often as before, in order; the id is gone. The selection is cleared exactly when the selected developer has that id, and is otherwise kept. |
| Collection.DeleteIdempotent | App.tsx:33 | Deleting twice equals deleting once. |
| Collection.DeleteAbsent | App.tsx:33 | Deleting an id that is not saved keeps the list. |
| Collection.UpdateDeveloper | App.tsx:39-41 | Length and positions are kept. Every entry with the updated id becomes the update, and every other entry is untouched. |
| Collection.UpdateKeepsIds | App.tsx:40 | Each position keeps its id, so unique ids stay unique. |
| Collection.UpdateUnknownIsNoop | App.tsx:40 | Updating an id that is not saved changes nothing. |
| Collection.UpdateIdempotent | App.tsx:40 | Updating twice with the same record equals updating once. |
| Collection.ImportDevelopers | App.tsx:43-45 | The imported list replaces the list wholesale; the selection is untouched. |
| Collection.SelectDeveloper | App.tsx:24-26 | Selecting shows the given developer and keeps the list. |
| Collection.BackToDevelopers | App.tsx:28-30 | Going back clears the selection and keeps the list. |
| Collection.DeleteSelectedGoesBack | App.tsx:24-37 | Deleting the developer being viewed is the same as going back after deleting it. |
| DeveloperList.InsertTag | components/DeveloperList.tsx:108-110 | Adding a tag to the sorted set keeps it strictly sorted and adds exactly that tag. |
| DeveloperList.AllTags | components/DeveloperList.tsx:107-111 | The tag bar is strictly sorted, so duplicate-free. A tag is in it exactly when some developer carries it. |
| DeveloperList.StrictlySortedUnique | components/DeveloperList.tsx:108-110 | Two strictly sorted lists with the same elements are equal, so the tag bar depends only on the set of tags. |
| DeveloperList.FilterByTag | components/DeveloperList.tsx:113-116 | With no active tag (null or `""`) the list is returned unchanged. Otherwise the result is the order-preserving subsequence of developers carrying the tag, each as often as before. |
| DeveloperList.FilterByTagIdempotent | components/DeveloperList.tsx:113-116 | Filtering the filtered list again changes nothing. |
| DeveloperList.HandleSort | components/DeveloperList.tsx:130-137 | The pressed key becomes the key. The same key flips the direction; a new key starts ascending. |
| DeveloperList.HandleSortTwice | components/DeveloperList.tsx:130-137 | Pressing the current key twice restores the state. Pressing a new key twice leaves it descending. |
| DeveloperList.SortDevelopers | components/DeveloperList.tsx:118-128 | A permutation of its input. By name it follows the collation order (reversed for desc). By date added, time is non-decreasing for asc and non-increasing for desc. |
| DeveloperList.OpensNewestFirst | components/DeveloperList.tsx:40-41 | The list opens sorted by date added, newest first: every card's time is at least that of the cards after it. |
| DeveloperList.DescIsReversedAsc | components/DeveloperList.tsx:118-128 | When no two different developers tie on the key, the descending list is exactly the ascending list read backwards, for names and for dates. |
| DeveloperList.VisibleDevelopers | components/DeveloperList.tsx:113-128 | The cards shown are the tag-filtered list sorted by the current sort state, so they inherit `SortDevelopers`' order clauses. They are a permutation of the filtered list. A developer is shown exactly when it carries the active tag, or when no tag is active. |
| DeveloperList.FindById | components/DeveloperList.tsx:140 | `find`: nothing exactly when no developer has the id. Otherwise the first developer with the id. |
| DeveloperList.HandleSaveTags | components/DeveloperList.tsx:139-145 | The editor closes. An unknown id changes nothing, and developers with other ids are untouched. With unique ids, the developer with the id changes only in its tags. |
| DeveloperList.SaveTagsWithRepeatedIds | components/DeveloperList.tsx:139-145 | When ids repeat, every developer with the id becomes a copy of the first one, carrying the new tags. |
| DeveloperList.CheckItem | components/DeveloperList.tsx:169-175 | An item passes exactly when it is an object with a number `id` and string `name`, `url`, `dateAdded` and `iconUrl`. Reading a field of `null` throws. |
| DeveloperList.CheckItems | components/DeveloperList.tsx:169-175 | `every` passes exactly when all items pass. Otherwise it stops at the first item that fails. |
| DeveloperList.ToDevelopers | components/DeveloperList.tsx:177 | An accepted array becomes developers position by position. |
| DeveloperList.HandleImport | components/DeveloperList.tsx:160-191 | The list is replaced exactly when the file is an array passing the shape check and the user confirms. Otherwise the collection is unchanged. A parse failure, or a `null` item met first, is a read failure. Any other rejection is the invalid-format alert. |
| DeveloperList.ImportAlert | components/DeveloperList.tsx:180-184 | An alert is shown exactly for the two rejections, invalid format and read failure. An accepted or declined file shows none. |
| DeveloperList.ImportAlertsDistinct | components/DeveloperList.tsx:180-184 | The invalid-format alert and the read-failure alert differ. |
| DeveloperList.DeveloperJson | components/DeveloperList.tsx:147-175 | `JSON.stringify` of one developer: the record passes the import's shape check and reads back as the same developer. It has a `tags` field exactly when the developer has a tag list. |
| DeveloperList.ExportJson | components/DeveloperList.tsx:147-175 | The exported file is an array that passes the import's shape check, one record per developer. Each record reads back as the developer at its position. |
| DeveloperList.ExportImportRoundTrip | components/DeveloperList.tsx:147-181 | Importing an export, confirmed, restores exactly the exported list. |
| DeveloperList.ImportMissingIconRejected | components/DeveloperList.tsx:169-180 | A record without `iconUrl` is rejected as invalid format, and the collection is unchanged. |
| DeveloperList.RunSearch | components/DeveloperList.tsx:48-72 | An empty term clears the results without a request. A request is issued exactly for a non-blank term. The fetched software results replace the list, or the error message is shown. The collection is untouched. |
| DeveloperList.HandleAddFromSearch | components/DeveloperList.tsx:74-83 | The add is the collection's add of the result's publisher: artistId, artistName, artistViewUrl and artworkUrl100 become the id, name, url and icon. A new developer is stamped with `now`, has an empty tag list, and goes in front of the unchanged list. A saved id changes nothing. The selection is kept. The search box and results are cleared. |
| DeveloperList.HandleAddFromUrl | components/DeveloperList.tsx:85-104 | A blank URL changes nothing and issues no request. Otherwise, on success the developer is added and the input cleared. On failure the collection is kept and the error message is shown. |
| TagEditor.Open | components/DeveloperTagEditModal.tsx:17-18 | The editor starts with the developer's tags, or `[]` when it has none, and an empty input. |
| TagEditor.SetInput | components/DeveloperTagEditModal.tsx:66 | Typing replaces the input only. The developer and the working tags are kept. |
| TagEditor.AddTag | components/DeveloperTagEditModal.tsx:30-37 | The trimmed input is appended exactly when it is non-empty and not yet a tag; otherwise the tags are kept. The input is cleared either way. |
| TagEditor.AddTagKeepsDistinct | components/DeveloperTagEditModal.tsx:30-37 | Adding never creates a duplicate. A blank or untrimmed tag after an add was already there, since an imported list may hold one. |
| TagEditor.AddTagKeepsClean | components/DeveloperTagEditModal.tsx:32-34 | Adding keeps the tags trimmed, non-empty and duplicate-free. |
| TagEditor.AddTagRepeated | components/DeveloperTagEditModal.tsx:30-37 | Submitting the same text a second time adds nothing. |
| TagEditor.RemoveTag | components/DeveloperTagEditModal.tsx:39-41 | Every occurrence of the tag goes. The others stay, in order and with their multiplicities. |
| TagEditor.RemoveAbsentIsNoop | components/DeveloperTagEditModal.tsx:40 | Removing a tag that is not there changes nothing. |
| TagEditor.RemoveKeepsClean | components/DeveloperTagEditModal.tsx:40 | Removing keeps the tags trimmed, non-empty and duplicate-free. |
| TagEditor.Save | components/DeveloperTagEditModal.tsx:43-45 | The developer's id and the working tags go to the list's tag saving. The editor closes and the rest of the screen state and the selection are kept. An id no longer saved changes nothing. Developers with other ids are untouched; with unique ids, only that developer's tags change. |
| TagEditor.UnaddedInputIsNotSaved | components/DeveloperTagEditModal.tsx:43-45 | Text typed but not added does not reach the saved tags. |
| AppList.HandleSort | components/AppList.tsx:59-66 | The pressed key becomes the key. The same key flips the direction. A new key starts descending for release date and ascending for name. |
| AppList.DefaultDirection | components/AppList.tsx:59-66 | A newly picked key starts descending exactly when it is the release date. |
| AppList.OpensNewestFirst | components/AppList.tsx:23-24 | The screen opens as if release date had just been picked, so the newest release comes first. |
| AppList.HandleSortTwice | components/AppList.tsx:60-61 | Pressing the current key twice restores the state. |
| AppList.HandleSortAwayAndBack | components/AppList.tsx:23-66 | Switching to the other key and back lands on the key's starting direction. From the initial state (release date, desc) this is the initial state again. |
| AppList.SortMachinesDiffer | components/AppList.tsx:59-66 | Name then date gives desc here but asc on the developer list, whose new keys always start ascending. |
| AppList.SortApps | components/AppList.tsx:47-57 | A permutation of the fetched apps, which are left as they were. By name it follows the collation order (reversed for desc). By release date, time is non-decreasing for asc and non-increasing for desc. |
| AppList.DescIsReversedAsc | components/AppList.tsx:47-57 | When no two different apps tie on the key, the descending list is exactly the ascending list read backwards, for names and for release dates. |
| AppList.FetchApps | components/AppList.tsx:26-41 | A failure shows the error's message. A success shows the apps, all published by the developer's id. |
| DeveloperCard.TagPreview | components/common/DeveloperCard.tsx:57-61 | No tag row exactly when the tags are absent or empty. Otherwise the row shows the first min(3, n) tags in order. A `+N` label appears exactly when n > 3. Its text is `+` followed by n − 3 in decimal without a leading zero, which counts the tags not shown. |
| DeveloperCard.PreviewCountsAllTags | components/common/DeveloperCard.tsx:59-60 | The tags shown plus the label's count add up to the number of tags. |
| DeveloperCard.CardAvatar | components/common/DeveloperCard.tsx:37-47 | The icon is shown exactly when `iconUrl` is non-empty. Otherwise the name's first character is shown, or nothing for an empty name. |
| DeveloperCard.HandleDelete | components/common/DeveloperCard.tsx:17-22 | The developer's id is passed on exactly when the user confirms. |
| DeveloperCard.DeleteFromCard | components/common/DeveloperCard.tsx:17-22 | Declining changes nothing. Confirming is the collection's delete of the card's id. Exactly the developers with another id remain, in order and as often as before. The selection is cleared exactly when it had that id. The list shrinks when the card's developer was saved. |
| RatingCount.FormatRatingCount | components/AppDetailModal.tsx:11-16 | No count gives 評価なし. Below 1000 the count is shown as is. From 1000 to 9999 it is scaled to [1, 10) with 千. From 10000 on it is scaled to at least 1 with 万. |
| RatingCount.FormatDenotesCount | components/AppDetailModal.tsx:13-15 | Before rounding, the scaled value times its unit is exactly the count. |
| RatingCount.TierMonotone | components/AppDetailModal.tsx:12-15 | A larger count never gets a smaller unit. |

## Left out

- Network plumbing is not modelled. The relay prefix, `encodeURIComponent`, the `country=jp&entity=software` query constants and `fetch` itself are reduced to the `Request` datatype and the `respond` parameter.
- `response.text()` failing on an ok response is not modelled. On a non-ok response its failure only affects the console log, which is not modelled either.
- Console logging is not modelled.
- `JSON.parse` with its cast is a parameter yielding a well-typed envelope. Envelopes with a missing `results` field or wrongly typed fields, which make the client throw a `TypeError`, are not modelled.
- The `'不明なエラーが発生しました。'` branches are not modelled: every error the client throws is an `Error`, so they are unreachable here.
- Loading flags (`isLoading`, `isSearching`, `isAddingFromUrl`) and spinners are not modelled.
- DeveloperList.RunSearch: models one run of the search effect. The 500 ms debounce, the search/URL tab that gates the effect, and races between overlapping searches are timing-dependent and are not modelled.
- React state, effects and `useLocalStorage` persistence are not modelled. The collection is passed explicitly.
- TagEditor.Open: the editor reloads `developer.tags || []` whenever its effect reruns, and the effect depends on `onClose`, which the list screen passes as a new function on every render. So a re-render while the editor is open drops unsaved edits. A URL add resolving or a debounced search firing would cause one. The model opens the editor once and does not model re-renders.
- Strings.IntToDecimal: ids are JavaScript numbers. The template literal agrees with the model's rendering only for safe integers (magnitude at most 2^53). Larger ids print as the shortest round-trip digits or in exponent form, which the model does not represent. An imported file can carry such an id.
- Collection.AddDeveloper: the duplicate test reads the list as of the triggering render. An add that resolves after the same id was added another way duplicates it. An example is a URL lookup still pending while the same developer is added from search or by import. The model applies each add to the current list, so `AddKeepsUniqueIds` covers sequential adds only.
- `sw.js` and all JSX/CSS markup are not modelled. This includes `Header`, `Tag` and `AppCard`, and the escape-key and backdrop closing of the dialogs.
- The export's Blob, download link and dated file name are not modelled. The export is modelled as the JSON value it writes. The file picker (no file chosen), the `FileReader` and resetting the file input are not modelled.
- `alert` and `confirm` become an outcome value and a boolean input.
- DeveloperList.SortDevelopers: `localeCompare` is an abstract total preorder and `new Date(...).getTime()` an abstract integer function. Invalid dates (NaN) are not modelled. `Array.prototype.sort` is stable, so tied developers keep their saved order, and the model's insertion sort is stable too. The contract does not state the order among ties, so asc and desc are claimed to be reverses only when there are no ties (`DeveloperList.DescIsReversedAsc`).
- AppList.SortApps: the same abstractions and limits as `SortDevelopers`. The tie-free reversal is `AppList.DescIsReversedAsc`.
- DeveloperList.AllTags: orders strings by character, while the default `sort()` orders UTF-16 code units. The two orders differ only for characters above U+FFFF.
- DeveloperList.ImportedTags: the import does not check the `tags` field and keeps whatever value the file holds. The model keeps an array of strings and reads any other value as no tags.
- DeveloperList.CheckItem: JSON numbers are integers in the model. A fractional `id`, which passes `typeof === 'number'`, is not represented.
- DeveloperCard.CardAvatar: `charAt(0)` takes the first UTF-16 code unit, while the model takes the first character. The two differ for a name starting above U+FFFF.
- RatingCount.FormatRatingCount: the digits `toFixed(1)` produces are not modelled, only the scaled value and the chosen unit. The average-rating display is not modelled either.
- The card's select and edit-tags buttons are plain pass-throughs to `SelectDeveloper` and `TagEditor.Open`. The `stopPropagation` calls are not modelled.

## Notes on the code

- Tags are an ordered array. The editor's add and remove keep the positions of the other tags, and the card previews the first three in order. The model uses sequences.
- Import does not check ids. Only adding tests for a present id, so an imported file can hold repeated ids. `DeveloperList.SaveTagsWithRepeatedIds` states what tag saving then does.
- A `null` item in an imported file gives the read-failure alert. The `every` test throws on it, and the surrounding `catch` shows that alert, not the invalid-format one. `DeveloperList.HandleImport` keeps the distinction.
- The search term is trimmed only for the blank test. The service sends nothing for a whitespace-only term (`ItunesService.SearchAppsByName`). The screen's effect skips only the empty term (`DeveloperList.RunSearch`).
- There is no guard against a late result. A slow search that resolves after a newer one overwrites its results. The model covers one run of the effect and claims no ordering between runs.
