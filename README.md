# Xarcon Realty admin and map logic, modelled in Dafny

This project models the browser-side rules of the Xarcon Realty site that decide what
gets stored and shown. It has four parts.

- **Admin storage and dashboard** (`js/admin.js`):
  - how the panel reads the locally stored listings, including the one-time
    migration from two legacy keys;
  - how it classifies each id as coming from the static catalogue (`default`) or
    from local storage (`custom`);
  - what saving (create or edit) and deleting write into the three storage slots:
    the custom list, the overrides map and the deleted-id set;
  - how slugs and unique ids are minted, the sold/available counters, and the
    form submit that reserves an id before saving.
- **Map page** (`js/map-page.js`):
  - the picture of a listing, or the placeholder;
  - the geographic view of a listing, with its city/address fallbacks and the
    "has coordinates" flag;
  - the filter panel (city, type, maximum price);
  - the sorted, de-duplicated city and type option lists;
  - the six-card preview under the map.
- **Image uploader** (`js/admin-upload.js`):
  - the size label and the preview names;
  - the clamped progress bar;
  - the ordered image buffer, changed by adding files, loading data URLs,
    removing an entry and clearing.
- **Theme switch** (`js/theme-toggle.js`):
  - the saved and preferred theme;
  - a click on a toggle;
  - a change of the system colour scheme;
  - the attributes written on the toggle buttons.

## How it is modelled

- Code that only computes becomes functions and lemmas. State the page updates in
  place becomes a class with fields:
  - `AdminStorage.AdminStore`: the five storage keys;
  - `AdminUpload.ImageUploader`: the uploader closure;
  - `ThemeToggle.ThemeController`: the root attribute, the storage entry, the
    system scheme and an array of button attributes.
- Each method of these classes is proved equal to a pure transition function on
  a state datatype, for example `SaveEffect`, `AddFilesEffect` or `Click`. The
  lemmas are stated about those functions.
- The loops of the source are methods with loop invariants:
  - the id search in `generateUniquePropertyId`;
  - the size split and the append loop of `addFiles`;
  - the button loop of `syncToggleState`.
- JavaScript's `Number(...)` on a coordinate is `Listing.ToNumber`. It returns an
  `Option<real>`, where `None` is NaN or an infinity. `Number(null)` is `0`, as in
  the language.
- Inputs from outside the modelled code become parameters:
  - the merged catalogue, which comes from `window.getProperties`;
  - the record normaliser, which comes from `window.normalizeProperty`;
  - the fetched static catalogue;
  - today's date;
  - the data URL a file reads as.
- Image ids come from a counter, which stands for the page's clock-and-random
  strings.

## Model

| member | source | states |
|---|---|---|
| `AdminStorage.SafeParse` | js/admin.js:28-35 | the parsed value when there is one; the fallback for unparsable text, JSON null and a missing key |
| `AdminStorage.NonEmptyArray` | js/admin.js:39-39 | some items exactly when the slot holds a non-empty JSON array, and then those items |
| `AdminStorage.ReadStored` | js/admin.js:37-56 | a non-empty primary list is returned with nothing written; otherwise the first non-empty legacy list (primary legacy first) is returned and copied into the primary slot; otherwise the list is empty; only the primary slot is ever written |
| `AdminStorage.ReadStoredIsStable` | js/admin.js:37-56 | the migration happens once: a second read returns the same list and writes nothing |
| `AdminStorage.WithoutId` | js/admin.js:239-239 | keeps exactly the entries whose id differs |
| `AdminStorage.ReplaceById` | js/admin.js:257-257 | same length; same-id entries replaced by the record, all others unchanged |
| `AdminStorage.ReplaceByIdAbsent` | js/admin.js:257-257 | a record whose id is absent is not added: the list is unchanged |
| `AdminStorage.RemoveId` | js/admin.js:236-236 | the deleted set without the id, every other member kept, and free of duplicates when it was |
| `AdminStorage.AddId` | js/admin.js:276-276 | the deleted set with the id added, still free of duplicates |
| `AdminStorage.AsOverride` | js/admin.js:248-253 | the stored override is the record with `sold` set exactly when the status is `sold` |
| `AdminStorage.SaveEffect` | js/admin.js:231-263 | the legacy slots are untouched; the id leaves the deleted set, which keeps its other members and no duplicates; the overrides change only when a default id is edited, and then the id maps to the record with `sold` taken from the status |
| `AdminStorage.DeleteEffect` | js/admin.js:265-280 | the legacy slots are untouched and the deleted set has no duplicates; deleting a custom id leaves the overrides and the deleted set's members alone; deleting any other id drops its override, adds it to the deleted set, and the stored list reads the same |
| `AdminStorage.SaveCreate` | js/admin.js:238-245 | create mode: the record heads the stored list, no other entry has its id, overrides are untouched, the id leaves the deleted set, and the legacy slots are untouched |
| `AdminStorage.SaveEditDefault` | js/admin.js:247-255 | edit of a default id: the override for the id is set, with `sold` matching the status; the stored list reads the same; the id leaves the deleted set |
| `AdminStorage.SaveEditCustom` | js/admin.js:256-262 | edit of any other id: same-id entries are replaced in place, with the same length; nothing is added when the id is absent; overrides are untouched; the id leaves the deleted set |
| `AdminStorage.DeleteCustom` | js/admin.js:271-272 | delete of a custom id: the stored list is written without it; overrides and the deleted set are unchanged |
| `AdminStorage.DeleteOther` | js/admin.js:273-279 | delete of any other id: its override key is removed and the id is added to the deleted set; the stored list reads the same |
| `AdminStorage.DeleteLastCustomRestoresLegacy` | js/admin.js:37-56 | as written: deleting the only custom listing, when it came from the primary legacy key, lets the next read return it again |
| `AdminStorage.ReadStoredIntended` | js/admin.js:37-56 | corrected read: a primary slot that holds an array, even an empty one, is returned as it is |
| `AdminStorage.DeleteEffectIntended` | js/admin.js:265-280 | the same writes as `DeleteEffect`, over the corrected read: legacy slots untouched, no duplicate deleted ids, a custom id leaves overrides and deleted members alone, any other id loses its override and joins the deleted set |
| `AdminStorage.DeleteIntendedRemovesForGood` | js/admin.js:265-280 | with the corrected read, a deleted custom listing is absent from every later read |
| `AdminStorage.ClassifyDefaults` | js/admin.js:112-114 | every catalogue id maps to `custom` if it is stored and to `default` otherwise; other entries are unchanged |
| `AdminStorage.MarkCustom` | js/admin.js:116-118 | every stored id maps to `custom`; other entries are unchanged |
| `AdminStorage.OriginMap` | js/admin.js:106-121 | the map's domain is exactly the catalogue ids plus the stored ids; stored ids map to `custom`; catalogue-only ids map to `default` |
| `AdminStorage.AdminStore.GetStoredProperties` | js/admin.js:37-56 | returns `ReadStored`'s list and leaves `ReadStored`'s storage |
| `AdminStorage.AdminStore.SaveProperty` | js/admin.js:231-263 | the new storage is `SaveEffect` of the old |
| `AdminStorage.AdminStore.DeletePropertyById` | js/admin.js:265-280 | the new storage is `DeleteEffect` of the old |
| `Slug.Lower` | js/admin.js:66-66 | same length; each character lower-cased (ASCII) |
| `Slug.CollapseRuns` | js/admin.js:69-69 | only `a-z`, `0-9` and `-` remain, with no `--`; a leading run of other characters becomes one `-`; the letters and digits of the input are all kept, in order, and nothing else is (`Filter(r, IsSlugChar) == Filter(s, IsSlugChar)`) |
| `Slug.HyphenFilteredOut` | js/admin.js:69-70 | a `-` added at either end keeps the same letters and digits |
| `Slug.StripEndHyphens` | js/admin.js:70-70 | the result is a slug (allowed characters only, no `--`, no `-` at either end), and the input is the result with at most one `-` added at each end |
| `Slug.CreateSlug` | js/admin.js:64-70 | the result contains only `a-z`, `0-9` and `-`, never `--`, and does not start or end with `-`; its letters and digits are exactly those of the lower-cased input, in order |
| `Slug.CollapseRunsOfSlugText` | js/admin.js:69-69 | text already in the slug alphabet with no `--` is left unchanged |
| `Slug.CreateSlugIdempotent` | js/admin.js:64-70 | slugging a slug gives the same slug |
| `Text.Trim` | js/admin.js:73-73 | neither end of the result is whitespace |
| `Text.TrimStartIsSuffix` | js/admin.js:73-73 | what the leading trim keeps is a suffix of the input, and everything before it is whitespace |
| `Text.TrimEndDropsWhitespace` | js/admin.js:73-73 | everything after the prefix the trailing trim keeps is whitespace |
| `Text.TrimDropsOnlyWhitespace` | js/admin.js:73-73 | `trim` returns a contiguous slice of the input with only whitespace before and after it |
| `Text.TrimIdempotent` | js/admin.js:311-316 | trimming trimmed text changes nothing, so the already trimmed requested id passes through the generator's own trim |
| `Text.NatToString` | js/admin.js:83-83 | at least one digit; a single digit exactly for numbers below 10; digits only |
| `Text.NatToStringInjective` | js/admin.js:83-83 | different suffixes render differently |
| `Text.TakeUntil` | js/admin-upload.js:131-131 | the prefix before the first `;`, or all of the text |
| `Text.TakeUntilPrefix` | js/admin-upload.js:131-131 | splitting `a;b` with no `;` in `a` gives `a` |
| `Text.ReplaceFirstAt` | js/admin-upload.js:131-131 | `replace` with a string pattern replaces the first occurrence, and only it: with the first occurrence at `i`, the result is `s[..i] + replacement + s[i + |pattern|..]` |
| `Text.ReplaceFirstAbsent` | js/admin-upload.js:131-131 | text without the pattern is returned unchanged |
| `Text.LexLeTotal` | js/map-page.js:66-66 | the default string order is total |
| `Text.LexLeTransitive` | js/map-page.js:66-66 | the default string order is transitive |
| `Text.LexLeAntisymmetric` | js/map-page.js:66-66 | the default string order is antisymmetric |
| `Text.SortStrings` | js/map-page.js:66-66 | the result is sorted and a permutation of the input |
| `Listing.ToNumber` | js/map-page.js:44-46 | finite exactly for a number or `null`; `null` coerces to 0 |
| `Listing.Ids` | js/admin.js:109-109 | the ids of the listings, position by position |
| `Seqs.Filter` | js/map-page.js:84-90 | keeps exactly the elements satisfying the predicate, and no more than the input |
| `Seqs.FilterIsSubsequence` | js/map-page.js:84-90 | a filter's result is an order-preserving subsequence of its input |
| `Seqs.Dedup` | js/map-page.js:66-66 | `new Set` keeps each element once, loses none, and adds none |
| `Seqs.DistinctPermutation` | js/map-page.js:66-70 | sorting a list without duplicates leaves it without duplicates |
| `PropertyIds.BaseSlug` | js/admin.js:78-78 | the title's slug, or `propiedad` when the slug is empty; never empty |
| `PropertyIds.CandidateInjective` | js/admin.js:83-83 | different attempts produce different ids |
| `PropertyIds.NotYetTried` | js/admin.js:82-85 | a later attempt is not among the earlier ones, which is why the loop ends |
| `PropertyIds.GenerateUniquePropertyId` | js/admin.js:72-88 | the result is never a used id; a non-empty unused trimmed preferred id is returned as it is; otherwise the result is the first of base, base-1, base-2, ... that is unused |
| `PropertyIds.FirstUnusedCandidate` | js/admin.js:79-87 | the loop returns an unused id, the first of base, base-1, base-2, ... that is unused |
| `AdminDashboard.SoldSplit` | js/admin.js:160-163 | every listing is counted once, as sold or as not sold |
| `AdminDashboard.SyncCounters` | js/admin.js:159-164 | total is the number of listings; sold counts status `sold`; available counts the rest; sold + available = total |
| `AdminDashboard.UsedIds` | js/admin.js:312-315 | all merged ids, minus the record's own requested id when editing |
| `AdminDashboard.FindById` | js/admin.js:345-345 | the first record with the id: it is in the list, has the id, and no earlier record has it; otherwise no record has the id |
| `AdminDashboard.RecordFromForm` | js/admin.js:322-342 | id, title, images and date as given; location, city, address and description trimmed; the agent is the trimmed field, or `Equipo Xarcon` when that is blank; `sold` exactly when the status is `sold`; status, price, type, coordinates, `featured` and `opportunity` carried over |
| `AdminDashboard.KeptDate` | js/admin.js:344-348 | today outside edit mode; in edit mode the non-empty date of the first merged record with the id when it has one, else today; never a date that no merged record with the id carries |
| `AdminDashboard.MintId` | js/admin.js:312-320 | the id avoids the used ids; in edit mode a non-empty requested id is kept; an unused requested id is kept; the notice shows exactly when an automatic id differs from the title's slug |
| `AdminDashboard.PrepareRecord` | js/admin.js:309-349 | the saved record has the minted id and the form's fields; an edited record keeps the date of its merged original |
| `AdminDashboard.SubmitPropertyForm` | js/admin.js:301-351 | with no images nothing is written; otherwise the saved record is the form's record (`RecordFromForm`) with the reserved id and the kept date, the notice shows exactly when an automatic id differs from the title's slug, and the storage becomes `SaveEffect` of the old with that record |
| `MapPage.MapPropertyImage` | js/map-page.js:6-7 | the first image when it is a non-empty string, the placeholder otherwise; never empty |
| `MapPage.WithPlaceFallbacks` | js/map-page.js:42-43 | an empty city or address becomes the location; every other field is kept |
| `MapPage.ToGeoPropertyAsWritten` | js/map-page.js:40-47 | as written: located exactly when both coordinates coerce to finite numbers, `null` included |
| `MapPage.BlankCoordinatesPlacedAtOrigin` | js/map-page.js:44-46 | as written: a listing saved without coordinates is placed at latitude 0, longitude 0 |
| `MapPage.Placeable` | js/map-page.js:44-45 | a coordinate is usable exactly when the field holds a number |
| `MapPage.ToGeoProperty` | js/map-page.js:40-47 | corrected: located exactly when both fields hold numbers, and a located listing carries both coordinates |
| `MapPage.ToGeoPropertyAgrees` | js/map-page.js:40-47 | the two readings agree on every listing without a `null` coordinate |
| `MapPage.GeoCatalogue` | js/map-page.js:64-64 | as written: the map's listings, each read by `ToGeoPropertyAsWritten`, position by position |
| `MapPage.GeoCatalogueIntended` | js/map-page.js:64-64 | corrected: the map's listings, each read by `ToGeoProperty`, position by position |
| `MapPage.MaxPrice` | js/map-page.js:80-80 | an empty box means `MAX_SAFE_INTEGER`; otherwise the box's number |
| `MapPage.FilteredProperties` | js/map-page.js:79-91 | every result is located, in the selected city and of the selected type when one is selected, and no dearer than the maximum; every catalogue listing meeting all of these is in the result |
| `MapPage.FilteredIsSubsequence` | js/map-page.js:84-90 | the filtered list keeps the catalogue's order |
| `MapPage.EmptyPriceBoxIsMaxSafeInteger` | js/map-page.js:80-80 | an empty price box filters exactly like a box holding `MAX_SAFE_INTEGER` |
| `MapPage.UnfilteredShowsLocated` | js/map-page.js:79-91 | with no selection, the map shows every located listing priced up to `MAX_SAFE_INTEGER` |
| `MapPage.NotNumericPriceShowsNothing` | js/map-page.js:80-88 | a price box read as NaN shows nothing |
| `MapPage.Cities` | js/map-page.js:66-66 | the listings' cities, position by position |
| `MapPage.Types` | js/map-page.js:70-70 | the listings' types, position by position |
| `MapPage.CityOptions` | js/map-page.js:66-66 | distinct, sorted, no empty city; each listing's non-empty city is offered, and nothing else |
| `MapPage.TypeOptions` | js/map-page.js:70-70 | distinct and sorted; each listing's type is offered, and nothing else |
| `MapPage.RenderPreviewList` | js/map-page.js:93-111 | the label counts every filtered listing; cards are shown for the first six of them, in order |
| `MapPage.PreviewFor` | js/map-page.js:64-111 | the page's preview for a catalogue never counts more listings than the catalogue has |
| `MapPage.PreviewForIntended` | js/map-page.js:64-111 | the corrected preview never counts more listings than the catalogue has |
| `MapPage.CardsPassFilters` | js/map-page.js:84-111 | every card is drawn from a catalogue entry that passes the filters |
| `MapPage.PreviewShowsOnlyLocated` | js/map-page.js:79-111 | as written: every card is a catalogue listing whose coordinate fields each hold a number or `null` and whose price is within the box |
| `MapPage.PreviewShowsOnlyLocatedIntended` | js/map-page.js:79-111 | corrected: every card is a catalogue listing whose two coordinate fields hold numbers and whose price is within the box |
| `MapPage.BlankCoordinatesShownOnMap` | js/map-page.js:44-46 | as written, a listing with both coordinates `null` is counted and gets a card under no filter; the corrected reading counts nothing |
| `AdminUpload.FormatBytes` | js/admin-upload.js:3-8 | `0 B` for non-finite or non-positive sizes; bytes below 1024; kilobytes below 1024 * 1024; megabytes above |
| `AdminUpload.FormatBytesRoundTrip` | js/admin-upload.js:3-8 | before rounding, the label gives back the size |
| `AdminUpload.FormatBytesUnitMonotone` | js/admin-upload.js:3-8 | a larger size never gets a smaller unit |
| `AdminUpload.MakePreviewName` | js/admin-upload.js:10-10 | the name when present, otherwise `Imagen n` with n = index + 1 |
| `AdminUpload.UnnamedPreviewNamesDiffer` | js/admin-upload.js:10-10 | unnamed images at different positions get different names |
| `AdminUpload.Round` | js/admin-upload.js:28-28 | `Math.round`: within one half of the value, with halves rounded up |
| `AdminUpload.ClampProgress` | js/admin-upload.js:28-28 | always 0..100; the rounded value when it is in range, otherwise the nearer bound |
| `AdminUpload.ClampProgressMonotone` | js/admin-upload.js:28-28 | a larger value never gives a smaller bar |
| `AdminUpload.ImageFiles` | js/admin-upload.js:73-73 | exactly the files whose type starts with `image/` |
| `AdminUpload.ValidFiles` | js/admin-upload.js:82-88 | exactly the files not above the size limit, in input order: the input filtered by the limit |
| `AdminUpload.OversizedNotes` | js/admin-upload.js:82-88 | one note per file above the limit, in input order: the notes of the input filtered by the opposite test |
| `AdminUpload.OversizedNotesCover` | js/admin-upload.js:82-88 | every file above the limit is noted, and every note names such a file |
| `AdminUpload.SplitAccountsForAll` | js/admin-upload.js:82-88 | every file is kept or noted, never both: the two counts add up to the number of files |
| `AdminUpload.SplitBySize` | js/admin-upload.js:79-88 | the loop yields exactly `ValidFiles` and `OversizedNotes` of the input, which together account for every file |
| `AdminUpload.Uploaded` | js/admin-upload.js:110-116 | one entry per file, in order, with consecutive fresh ids |
| `AdminUpload.DataUrlType` | js/admin-upload.js:131-131 | never empty |
| `AdminUpload.DataUrlTypeOfEmptyType` | js/admin-upload.js:131-131 | `data:;...` names no type and yields the wildcard `image/*` |
| `AdminUpload.DataUrlTypeOfWellFormed` | js/admin-upload.js:131-131 | `data:<type>;...` yields `<type>` |
| `AdminUpload.DataUrlSize` | js/admin-upload.js:130-130 | the smallest whole number at least three quarters of the length |
| `AdminUpload.FromDataUrls` | js/admin-upload.js:125-133 | one entry per URL, in order, named `Imagen n`, with the estimated size and the URL's type |
| `AdminUpload.DataUrls` | js/admin-upload.js:197-197 | the entries' data URLs, in order |
| `AdminUpload.SetProgressEffect` | js/admin-upload.js:27-35 | the bar is the rounded value clamped to 0..100; the label is the message, or the percentage when the message is empty; the buffer is untouched |
| `AdminUpload.ShowLoaded` | js/admin-upload.js:136-136 | the bar is full when images remain and empty otherwise; the buffer is untouched |
| `AdminUpload.AddFilesEffect` | js/admin-upload.js:72-122 | with no image file nothing changes; otherwise the buffer and the id counter grow by the number of valid files, and the bar ends at 100, or at 0 when no file is valid |
| `AdminUpload.AddFilesAppends` | js/admin-upload.js:72-122 | existing entries are kept; the valid image files are appended in input order; each added entry is an image within the limit; with no valid file the buffer is unchanged |
| `AdminUpload.AddFilesKeepsValid` | js/admin-upload.js:101-118 | after adding, ids are still unique and below the next fresh id |
| `AdminUpload.AppendKeepsIdsFresh` | js/admin-upload.js:110-116 | entries numbered from the next fresh id keep every id unique and fresh |
| `AdminUpload.SetImagesRoundTrip` | js/admin-upload.js:124-133 | reading back after loading URLs gives the non-empty URLs, in order |
| `AdminUpload.SetImagesKeepsValid` | js/admin-upload.js:124-133 | after loading URLs, ids are unique and fresh |
| `AdminUpload.SetImagesEffect` | js/admin-upload.js:124-137 | one entry per non-empty URL; the bar is full exactly when there is one |
| `AdminUpload.FromDataUrlsIdsFresh` | js/admin-upload.js:125-133 | entries made from URLs have unique ids below the next fresh one |
| `AdminUpload.ReloadKeepsImages` | js/admin-upload.js:124-133 | reloading the buffer from its own non-empty URLs gives the same URLs back |
| `AdminUpload.WithoutImage` | js/admin-upload.js:189-189 | exactly the entries with another id, in their order |
| `AdminUpload.WithoutImageRemovesOne` | js/admin-upload.js:188-189 | with unique ids, removing an entry's id removes that one entry |
| `AdminUpload.WithoutImageKeepsAll` | js/admin-upload.js:189-189 | removing an id no entry has changes nothing |
| `AdminUpload.RemoveKeepsValid` | js/admin-upload.js:184-192 | after a removal, ids are still unique and fresh |
| `AdminUpload.RemoveEffect` | js/admin-upload.js:184-192 | exactly the entries with another id remain; the id counter is unchanged; the bar is full exactly when entries remain |
| `AdminUpload.WithoutImageKeepsIdsFresh` | js/admin-upload.js:189-189 | dropping entries keeps the remaining ids unique and fresh |
| `AdminUpload.ClearEffect` | js/admin-upload.js:139-144 | the buffer is empty, the bar is at 0, and validity is kept |
| `AdminUpload.InitialIsValid` | js/admin-upload.js:25-25 | the uploader starts with an empty, valid buffer |
| `AdminUpload.ImageUploader.SetProgress` | js/admin-upload.js:27-35 | the new state is `SetProgressEffect` of the old |
| `AdminUpload.ImageUploader.AddFiles` | js/admin-upload.js:72-122 | the new state is `AddFilesEffect` of the old; the report lists the skipped files and the count added |
| `AdminUpload.ImageUploader.AppendFiles` | js/admin-upload.js:101-118 | the buffer gains one entry per valid file, in order, with fresh ids |
| `AdminUpload.ImageUploader.SetImagesFromDataUrls` | js/admin-upload.js:124-137 | the new state is `SetImagesEffect` of the old |
| `AdminUpload.ImageUploader.Clear` | js/admin-upload.js:139-144 | the new state is `ClearEffect` of the old |
| `AdminUpload.ImageUploader.RemoveImage` | js/admin-upload.js:184-192 | the new state is `RemoveEffect` of the old |
| `AdminUpload.ImageUploader.GetImages` | js/admin-upload.js:197-197 | the data URLs in buffer order |
| `AdminUpload.CreateAdminImageUploader` | js/admin-upload.js:12-23 | refuses when the input, drop zone or preview is missing; otherwise a fresh empty uploader, with a 3 MB limit unless another is given |
| `ThemeToggle.Name` | js/theme-toggle.js:38-38 | `dark` or `light`, `dark` exactly for the dark theme |
| `ThemeToggle.Attrs` | js/theme-toggle.js:19-25 | `aria-pressed` is `true` exactly for dark, and `data-mode` is the theme |
| `ThemeToggle.AttrsInjective` | js/theme-toggle.js:19-25 | the two themes give different button attributes |
| `ThemeToggle.SavedTheme` | js/theme-toggle.js:8-11 | a saved theme only for a stored `dark` or `light`, and then that one |
| `ThemeToggle.SystemTheme` | js/theme-toggle.js:5-6 | dark exactly when the system asks for a dark scheme |
| `ThemeToggle.PreferredTheme` | js/theme-toggle.js:13-13 | the saved theme when valid, otherwise the system's |
| `ThemeToggle.Show` | js/theme-toggle.js:15-26 | the attribute and every button show the theme; storage and the system scheme are untouched |
| `ThemeToggle.Initialize` | js/theme-toggle.js:28-32 | the preferred theme is shown consistently |
| `ThemeToggle.InitializeIdempotent` | js/theme-toggle.js:63-70 | with the same buttons present, initializing again on `DOMContentLoaded` changes nothing |
| `ThemeToggle.NextTheme` | js/theme-toggle.js:38-38 | `light` exactly after `dark`; `dark` after anything else |
| `ThemeToggle.CurrentTheme` | js/theme-toggle.js:37-37 | the root attribute when set; otherwise `dark` or `light`, `dark` exactly when the preferred theme is dark |
| `ThemeToggle.Click` | js/theme-toggle.js:36-41 | the next theme is shown consistently and saved |
| `ThemeToggle.ClickSavesShownTheme` | js/theme-toggle.js:36-41 | after a click, a valid theme is saved and it is the one shown |
| `ThemeToggle.ClickTwiceRestores` | js/theme-toggle.js:36-41 | two clicks restore the attribute and the buttons |
| `ThemeToggle.SystemChange` | js/theme-toggle.js:52-59 | ignored while a valid theme is saved; otherwise the system's theme is shown |
| `ThemeToggle.SystemChangeIgnoredAfterClick` | js/theme-toggle.js:52-59 | after any click, system changes leave the theme and the buttons alone |
| `ThemeToggle.HandlersKeepSynced` | js/theme-toggle.js:28-59 | every handler leaves the attribute and the buttons in agreement |
| `ThemeToggle.ThemeController.SyncToggleState` | js/theme-toggle.js:19-26 | every button gets the theme's attributes |
| `ThemeToggle.ThemeController.InitializeTheme` | js/theme-toggle.js:28-32 | the new state is `Initialize` of the old |
| `ThemeToggle.ThemeController.OnToggleClick` | js/theme-toggle.js:36-42 | the new state is `Click` of the old |
| `ThemeToggle.ThemeController.OnSystemChange` | js/theme-toggle.js:52-60 | the new state is `SystemChange` of the old |

## Left out

- Credentials are left out: hashing with `crypto.subtle`, the default credential and the session check (js/admin.js:13-26, 98-104). They are a foreign crypto call and session storage.
- The catalogue fetch in `getPropertyOriginMap` is a parameter: `fetched` is `None` when the response is not ok.
- The merge of the static catalogue with local edits is a parameter. `window.getProperties` and `window.normalizeProperty` are not part of this model. The normaliser is assumed only to keep ids, and `AdminStore.SaveProperty` receives the already normalised record.
- One storage key is modelled for the custom list. The writer hard-codes `'xarcon_properties'` (js/admin.js:60), while reads use a configurable key; the two agree unless a page injects other keys.
- Only JSON shapes the panel writes are modelled for the overrides and deleted slots: an object and an array. Other parsed shapes in those keys are not modelled.
- `Slug.CreateSlug` lower-cases ASCII letters only. Unicode lower-casing, NFD decomposition and the stripping of combining marks are not modelled, so the input is taken to be free of diacritics.
- `Text.TrimStart` states in its own contract only that the result starts with non-whitespace and is no longer than its input. That it is a suffix of the input, after whitespace only, is the separate lemma `Text.TrimStartIsSuffix`; in the contract it made the submit proofs too costly.
- `Text.ReplaceFirst` has no contract of its own; what it returns is stated by the lemmas `Text.ReplaceFirstAt` (the first occurrence is replaced) and `Text.ReplaceFirstAbsent` (no occurrence, no change).
- `Text.SortStrings` orders by Unicode code point. JavaScript compares UTF-16 code units, which differs only for characters outside the Basic Multilingual Plane.
- Records leave out `bedrooms` and `bathrooms`: no modelled rule reads them.
- Non-array `images` fields are not modelled: `images` is always a sequence.
- Image ids come from a counter. The page builds them from the clock and a random number, and they are assumed fresh.
- Today's date is a parameter. The date-based sort and the HTML of the inventory table are not modelled.
- File reading is not modelled. The data URL a `FileReader` yields is part of the file, and a read failure midway through `addFiles` is not modelled. The intermediate progress values during reading are not modelled either; only the values set before and after the loop are.
- AdminUpload.AddFilesEffect: `addFiles` is asynchronous and awaits each file's read (js/admin-upload.js:72, 105). The model runs it as one step, so a remove, a clear, a `setImagesFromDataUrls` or another drop that runs between two reads is not modelled.
- ThemeToggle.InitializeIdempotent: the second initialization is stated for the same buttons. Buttons parsed after the script runs get their attributes only from the second call, and that growing set of buttons is not modelled.
- Status-line notices, preview markup, the input's reset and drag-and-drop styling are not modelled. `addFiles` instead returns a report of the skipped files and the count added.
- Decimal formatting with `toFixed` is not modelled, in `formatBytes` and for coordinates. Only the unit and the scaled number are.
- The map widget is not modelled: Google Maps loading, markers, clustering, bounds and the detail-page map (js/map-page.js:11-38, 125-242). All of js/admin-map.js and js/main.js are left out too.
- The edit, toggle-sold and reset handlers of the inventory list are not modelled separately (js/admin.js:166-200, 359-387). The toggle-sold handler is a `saveProperty` in edit mode, which `SaveEffect` covers.
- When `matchMedia` is missing, the system theme reads as light and no change events arrive. The model takes the system scheme as a boolean.
- `AdminStorage.AdminStore` follows the read as written (`ReadStored`). The corrected read `ReadStoredIntended` and its delete are stated beside it as functions, not as a second class.
- The map page follows `toGeoProperty` as written (`MapPage.GeoCatalogue`, `MapPage.PreviewFor`). The corrected reading (`GeoCatalogueIntended`, `PreviewForIntended`) is stated beside it.

## Findings

| source | as written | input that shows it | evidently intended | confidence | as-written member | corrected member |
|---|---|---|---|---|---|---|
| js/map-page.js:44-46 | `hasCoordinates` tests `Number.isFinite(Number(latitude))`, and `Number(null)` is 0 | a listing saved from the admin form with empty coordinate fields, which the form stores as `null` (js/admin.js:339-340), is marked located, placed at latitude 0, longitude 0, and counted and shown under the map | a listing is located only when both fields hold numbers | medium, not executed | `MapPage.BlankCoordinatesShownOnMap` | `MapPage.PreviewShowsOnlyLocatedIntended` |
| js/admin.js:37-56 | the legacy keys are read whenever the primary list is empty, and they are never cleared | stored list `[p]` migrated from the primary legacy key, which still holds `[p]`; delete `p` (a custom id); the next read returns `[p]` again | once migrated, an emptied primary list stays empty | medium, not executed | `AdminStorage.DeleteLastCustomRestoresLegacy` | `AdminStorage.DeleteIntendedRemovesForGood` |
