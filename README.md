# AgriMat-Digital in Dafny

A Dafny model of the page logic of AgriMat-Digital, a catalogue front-end for materials
used in agricultural machinery. The model covers nine parts of the app:

- **Material comparison page** (`Contrast`): `parseValue`, the radar chart data, the key
  union `getUniqueKeys` and the comparison table.
- **Material library** (`Materials`): facet configuration and toggling, the search,
  sorting, twelve-per-page paging and the comparison basket of at most six.
- **Material detail sheet** (`Detail`): the CSV export, the ordered key selection of
  `DataTable`, and the physical-plus-thermal merge.
- **Sign-up page** (`Register`) and **sign-in page** (`Auth`): field updates, the
  validators, the error maps and the send-code countdown. The phone and e-mail patterns
  and the countdown they share are in `Forms`.
- **Experiment archive** (`Experiments`), **equipment atlas** (`Equipments`) and
  **key-parts library** (`Parts`): list filters and lookups.
- **Navigation bar** (`Navbar`): what a click does, which section is highlighted, the
  scroll threshold and the login link.

Supporting modules:

- `Seqs`: an order-preserving filter, counting, and an insertion-ordered de-duplication
  that models a JavaScript `Set`.
- `Text`: ASCII lowering, substring search, `trim`, and the code-unit order of `<` on
  strings.
- `JsObject`: a string-keyed object that remembers insertion order, with spread-assignment
  `{...o, [k]: v}`, `delete` and two-object spread.
- `Catalogue`: the record shapes, JavaScript truthiness, `x || fallback` and the `find`
  lookups.
- `Wrappers`: `Option`.

React state is modelled in one of two ways:

- When a page's handlers update several state cells, the page is a class whose fields
  are those cells: `Materials.MaterialsPage`, `Register.RegisterPage`, `Auth.AuthPage`
  and `Equipments.EquipmentPage`. Each handler is a method that states the whole new
  state.
- Derived values (`useMemo`, filters, lookups) are functions. Where the source computes
  them with loops (`radarData`, `getUniqueKeys`, `allParts`, `handleSearch`,
  `handleExportCSV`, the tab effect), a method with loop invariants is proved equal to
  the specifying function.

Numbers follow the code, not the IEEE-754 representation:

- `parseFloat` of the matched digits is the exact rational value, of type `real`.
- `Math.round(x)` is `Floor(x + 1/2)`, so halves round up.

Behaviours of the code worth noting:

- **Description escaping.** Only the description has its quotes doubled in the CSV. Group
  entries and ratings are quoted with no escaping, and the basic rows are not quoted at
  all. The export carries no byte-order mark.
- **Density axis.** The density axis is declared "lower is better", but no score reads the
  flag (`Contrast.InverseFlagUnused`).
- **Empty selection.** An empty comparison selection gives a "no data" view rather than an
  empty table (`Contrast.ContrastPage`).
- **Empty values in the table.** The table shows `-` both for an absent key and for an
  empty value, so the two cannot be told apart (`Contrast.PropertySection`).
- **Reset does not reset the page.** `handleReset` leaves the page number as it was
  (`Materials.MaterialsPage.HandleReset`).

## Model

| member | source | states |
|---|---|---|
| Seqs.DedupSpec | pages/ContrastPage.tsx:76-83 | An insertion-ordered set read back as a list holds every element of the input, each once, ordered by first occurrence |
| Seqs.FilterIsSubsequence | pages/PartsPage.tsx:38 | `Array.filter` keeps exactly the passing elements, at strictly increasing positions of the input |
| Text.Trim | pages/MaterialsPage.tsx:182-183 | The trimmed query is a slice of the input, with only whitespace cut off at each end and no whitespace at either end of the result |
| Text.TrimEmpty | pages/MaterialsPage.tsx:182 | A query trims to the empty string exactly when it is all whitespace |
| Text.LowerIdempotent | pages/MaterialsPage.tsx:183 | Lowering twice is lowering once, and lowering keeps whitespace where it was |
| Text.LessTotal | pages/MaterialsPage.tsx:221-222 | Any two sort keys are equal or one is below the other |
| Text.LessTransitive | pages/MaterialsPage.tsx:221-222 | String order is transitive |
| JsObject.Put | pages/MaterialsPage.tsx:138-147 | `{...prev, [k]: v}` maps `k` to `v`, keeps every other key's value, and appends `k` to the key order only when it is new |
| JsObject.PutPut | pages/MaterialsPage.tsx:147 | Writing a key twice keeps the second value; writing back a key's own value changes nothing |
| JsObject.Delete | pages/RegisterPage.tsx:40-41 | `delete` removes the key from the object and from the key order and keeps every other key |
| JsObject.Spread | components/MaterialDetailModal.tsx:203 | `{...a, ...b}` takes `b`'s value on a key `b` has and `a`'s otherwise; its keys are `a`'s in their own order, then `b`'s keys that `a` lacks, in `b`'s order |
| Catalogue.OrElse | pages/PartsPage.tsx:24 | `v \|\| fallback` is the value when it is a non-empty string and the fallback otherwise |
| Catalogue.FindMaterial | pages/PartsPage.tsx:19 | `find` by id gives none exactly when no material has the id, and otherwise the first catalogue material with that id |
| Catalogue.FindEquipment | pages/EquipmentPage.tsx:26-28 | The deep-linked item is none for a missing URL id or an unknown one, and otherwise the first catalogue item with that id |
| Forms.PhoneIsPattern | pages/RegisterPage.tsx:67 | The phone test is the anchored pattern `1`, one of `3`–`9`, nine digits, read literally |
| Forms.PhoneExamples | pages/AuthPage.tsx:54-55 | A mobile number passes; a wrong second digit, ten digits or a letter fail |
| Forms.EmailIsPattern | pages/RegisterPage.tsx:66 | The e-mail test holds exactly when some substring is non-space run, `@`, non-space run, `.`, non-space run |
| Forms.EmailExamples | pages/RegisterPage.tsx:66 | `a@b.c` passes; a missing last run or a space inside the match fails |
| Forms.PutIfSpec | pages/RegisterPage.tsx:65-70 | A failing rule records its message under its key and touches no other key; a passing rule changes nothing |
| Forms.AfterTicksSpec | pages/RegisterPage.tsx:20-26 | After `n` seconds the countdown is `c - n`, or 0 once `n >= c` |
| Contrast.FirstNumber | pages/ContrastPage.tsx:32 | There is no match exactly when the text has no digit; otherwise the token is the leftmost-longest match of `\d+(\.\d+)?` |
| Contrast.ParseValue | pages/ContrastPage.tsx:30-34 | The value is never negative; it is 0 for a missing or empty value and for a match failure, and otherwise the decimal value of the first match |
| Contrast.ParseValueNoDigits | pages/ContrastPage.tsx:31-33 | Text without a digit reads 0 |
| Contrast.ParseValueOfDecimal | pages/ContrastPage.tsx:32-33 | A whole number written in decimal after digit-free text, and not followed by a point and a digit, parses back to that number |
| Contrast.ParseValueRange | pages/ContrastPage.tsx:32-33 | `38-92` reads 38 |
| Contrast.ParseValuePercent | pages/ContrastPage.tsx:32-33 | `29%` reads 29 |
| Contrast.ParseValueLeadingPoint | pages/ContrastPage.tsx:32-33 | `.5` reads 5 |
| Contrast.ParseValueStopsAtSecondPoint | pages/ContrastPage.tsx:32-33 | `1.2.3` reads 1.2 |
| Contrast.ParseValuePlaceholders | pages/ContrastPage.tsx:31-33 | `Bal.`, `-`, `/`, the empty string and a missing value read 0 |
| Contrast.MetricKeysDistinct | pages/ContrastPage.tsx:38-44 | The five axes read five different keys |
| Contrast.SpecValue | pages/ContrastPage.tsx:50-51 | A value is present exactly when the material has the group and the group has the key |
| Contrast.RawValue | pages/ContrastPage.tsx:51 | A material's parsed value on an axis is never negative |
| Contrast.LargestRawSpec | pages/ContrastPage.tsx:47-53 | The running maximum bounds every material's value and is one of them, or 0 |
| Contrast.MetricMaxSpec | pages/ContrastPage.tsx:46-55 | The axis maximum is positive and bounds every value; it is attained by some material, or it is 1 when every value is 0 |
| Contrast.ScoreSpec | pages/ContrastPage.tsx:62-66 | Every score is in [0, 100]; the maximum scores 100 and a zero value scores 0 |
| Contrast.AluminiumYieldExample | pages/ContrastPage.tsx:57-66 | Yield strengths 636 and 602 score 100 and 95 |
| Contrast.RadarData | pages/ContrastPage.tsx:37-71 | The two-pass loop over axes and materials produces exactly the chart data `RadarSpec` |
| Contrast.AxisMax | pages/ContrastPage.tsx:47-55 | The inner loop's running maximum, then `max \|\| 1`, is the axis maximum |
| Contrast.AxisPoint | pages/ContrastPage.tsx:57-69 | The inner loop builds the point of one axis: each material's score and raw value under its id |
| Contrast.ScoresOfKeys | pages/ContrastPage.tsx:59-67 | Each point has exactly the selected ids as keys, for the scores and for the raw values |
| Contrast.ScoresOfValues | pages/ContrastPage.tsx:66 | A material's entry is its own score unless a later material has the same id |
| Contrast.RawsOfValues | pages/ContrastPage.tsx:67 | A material's `_raw` entry is its own parsed value unless a later material has the same id |
| Contrast.RadarSpecProperties | pages/ContrastPage.tsx:37-70 | There are five points in axis order with `fullMark` 100; for distinct ids every material has a score in [0, 100] and its raw value; the maximum scores 100 and a zero scores 0 |
| Contrast.InverseFlagUnused | pages/ContrastPage.tsx:38-70 | Flipping an axis's `inverse` flag leaves its point unchanged |
| Contrast.GetUniqueKeys | pages/ContrastPage.tsx:75-84 | The nested loop adding keys to a `Set` returns the de-duplicated key list `UniqueKeys` |
| Contrast.AddKeys | pages/ContrastPage.tsx:80 | Adding one material's keys to the set extends the de-duplicated list of the keys seen so far |
| Contrast.AllKeysMembership | pages/ContrastPage.tsx:77-82 | A key is collected exactly when some material's group has it |
| Contrast.UniqueKeysSpec | pages/ContrastPage.tsx:75-84 | The union holds every key of the group across the selection, each once, in first-occurrence order, and is empty exactly when no material has a key |
| Contrast.UniqueKeysEmpty | pages/ContrastPage.tsx:83 | The union is empty exactly when every material's group is empty or absent |
| Contrast.PropertySection | pages/ContrastPage.tsx:104-117 | A section is omitted exactly when the union of keys is empty; otherwise there is one row per key, one cell per material, with the value or `-` |
| Contrast.PropertySectionsSpec | pages/ContrastPage.tsx:217-220 | The property sections are those of the groups with keys, in group order |
| Contrast.PropertySectionsRectangular | pages/ContrastPage.tsx:96-100 | Every row of a property section has one cell per selected material |
| Contrast.ComparisonTableShape | pages/ContrastPage.tsx:200-228 | The table opens with basic information, closes with the other characteristics, and every row has one cell per material |
| Contrast.ContrastPage | pages/ContrastPage.tsx:11-27 | The page shows "no data" exactly when no selection was handed over or it is empty; otherwise it shows the chart and the table of the selection |
| Materials.AllConfigsOk | pages/MaterialsPage.tsx:20-66 | No tab repeats a facet and no facet repeats a button |
| Materials.FindGroup | pages/MaterialsPage.tsx:129-130 | The facet lookup fails exactly for an id the tab does not have, and otherwise finds a facet of the tab with that id |
| Materials.EmptySelections | pages/MaterialsPage.tsx:197-200 | The initial state has every facet of the tab, in configuration order, with nothing selected |
| Materials.EmptySelectionsWellFormed | pages/MaterialsPage.tsx:197-201 | The initial state is well formed |
| Materials.ToggledWellFormed | pages/MaterialsPage.tsx:132-148 | A click on a rendered button keeps the selection free of repeats and within the facet's options |
| Materials.ToggleFilterFrame | pages/MaterialsPage.tsx:128-150 | A toggle changes no other facet, and a facet id the tab does not have changes nothing |
| Materials.ToggleOption | pages/MaterialsPage.tsx:142-148 | Toggling a specific option flips its membership and keeps every other option's |
| Materials.ToggleOptionTwice | pages/MaterialsPage.tsx:142-148 | Toggling an unselected option twice restores the selections exactly |
| Materials.ToggleAll | pages/MaterialsPage.tsx:132-141 | `全部` clears a facet whose options are all selected (and that has some), and otherwise selects all of them in configuration order |
| Materials.ToggleFilterWellFormed | pages/MaterialsPage.tsx:128-150 | Any rendered button keeps the whole selection state well formed |
| Materials.SearchResultsByStages | pages/MaterialsPage.tsx:166-189 | The results are the tab's materials passing every facet, further narrowed by the query only when it is not blank |
| Materials.SearchResultsSpec | pages/MaterialsPage.tsx:166-189 | A result is a catalogue material of the tab whose field contains some selected option for every facet with a selection, and which passes the query; no matching material is left out |
| Materials.SearchWithoutCriteria | pages/MaterialsPage.tsx:166-189 | With nothing selected and a blank query, the search lists the whole tab in catalogue order |
| Materials.NextSort | pages/MaterialsPage.tsx:207-213 | The new sort is on the clicked column, descending exactly when that column was ascending |
| Materials.NextSortAlternates | pages/MaterialsPage.tsx:207-213 | Clicking the same column again flips the direction |
| Materials.Insert | pages/MaterialsPage.tsx:218-224 | Insertion adds exactly the one element |
| Materials.InsertSorted | pages/MaterialsPage.tsx:218-224 | Inserting into a list in comparator order keeps it in comparator order |
| Materials.SortSpec | pages/MaterialsPage.tsx:218-224 | The sort yields a permutation in comparator order |
| Materials.SortedResultsSpec | pages/MaterialsPage.tsx:215-227 | The sorted results are a permutation of the results; column values never decrease when ascending and never increase when descending, with a missing value read as `''` |
| Materials.TotalPagesSpec | pages/MaterialsPage.tsx:229 | The page count is the ceiling of `n / 12`, and is 0 exactly for no results |
| Materials.PageItemsSpec | pages/MaterialsPage.tsx:230-233 | Page `p` shows items `(p-1)·12` up to `min(p·12, n)`, and it is non-empty exactly for pages 1 to the page count |
| Materials.PagesPrefix | pages/MaterialsPage.tsx:230-233 | The first `k` pages together are the first `min(12k, n)` items |
| Materials.AllPagesGiveTheList | pages/MaterialsPage.tsx:229-233 | Reading every page in turn gives back the sorted list |
| Materials.ToggleComparisonSpec | pages/MaterialsPage.tsx:247-261 | The basket stays at most six with distinct ids. A material not yet chosen is appended at the end when there is room, and a full basket comes back unchanged. A chosen one is removed, the others keeping their order. No other material's membership changes |
| Materials.RemoveById | pages/MaterialsPage.tsx:251-253 | With distinct ids, filtering out a chosen id drops exactly the one material with it, keeps the rest in order, and leaves the ids distinct |
| Materials.MaterialsPage.constructor | pages/MaterialsPage.tsx:73-103 | The page opens on the steel tab with empty selections, no query, no results, no sort, page 1 and an empty basket |
| Materials.MaterialsPage.ResetSelections | pages/MaterialsPage.tsx:197-200 | The loop over the tab's facets builds the empty selections |
| Materials.MaterialsPage.SwitchTab | pages/MaterialsPage.tsx:96-103 | A different tab resets the selections, the sort and the page and keeps the results; the same tab changes nothing |
| Materials.MaterialsPage.HandleFilterChange | pages/MaterialsPage.tsx:128-150 | The selections become the toggled ones, stay well formed, and no other state changes |
| Materials.MaterialsPage.SetSearchQuery | pages/MaterialsPage.tsx:345 | Typing changes only the query |
| Materials.MaterialsPage.NarrowByFacets | pages/MaterialsPage.tsx:166-180 | The facet loop leaves exactly the tab's materials that pass every facet, in catalogue order |
| Materials.MaterialsPage.NarrowByQuery | pages/MaterialsPage.tsx:182-189 | Narrowing by a non-blank query completes the search results |
| Materials.MaterialsPage.HandleSearch | pages/MaterialsPage.tsx:165-194 | The results become the search results, the search is marked done and the page is 1; nothing else changes |
| Materials.MaterialsPage.HandleReset | pages/MaterialsPage.tsx:196-205 | The selections are emptied, the query is blank, no results, not searched; sort, page and basket are kept |
| Materials.MaterialsPage.HandleSort | pages/MaterialsPage.tsx:207-213 | Only the sort changes, to the next sort for the clicked column |
| Materials.MaterialsPage.PrevPage | pages/MaterialsPage.tsx:434 | The page goes back one, never below 1 |
| Materials.MaterialsPage.NextPage | pages/MaterialsPage.tsx:430-438 | The page goes forward one, never past the page count, and stays between 1 and the page count |
| Materials.MaterialsPage.HandleToggleComparison | pages/MaterialsPage.tsx:247-261 | The basket becomes `ToggleComparison` of the old one, so it is appended to, left alone when full, or has the material removed in order, as `ToggleComparisonSpec` states; the alert is raised exactly when a new material meets a full basket |
| Materials.MaterialsPage.ClearComparison | pages/MaterialsPage.tsx:482 | Only the basket is emptied |
| Detail.EscapeQuotes | components/MaterialDetailModal.tsx:41 | Escaping lengthens the text by its number of quotes |
| Detail.UnescapeEscape | components/MaterialDetailModal.tsx:41 | Undoing the quote doubling gives back the description |
| Detail.EscapeWithoutQuotes | components/MaterialDetailModal.tsx:41 | A description without quotes is written unchanged |
| Detail.BasicLines | components/MaterialDetailModal.tsx:34-41 | There are eight basic rows |
| Detail.EntryLines | components/MaterialDetailModal.tsx:46-48 | One `group,"key","value"` line per key, in key order |
| Detail.GroupLines | components/MaterialDetailModal.tsx:44-49 | A group contributes as many lines as it has entries, and an absent group none |
| Detail.PerformanceLines | components/MaterialDetailModal.tsx:57-58 | A line for each rating that is present and non-empty |
| Detail.CsvLines | components/MaterialDetailModal.tsx:31-58 | The export has 9 lines plus one per group entry plus one per present rating |
| Detail.JoinNewlines | components/MaterialDetailModal.tsx:31-58 | Lines without newlines come out as exactly as many text lines |
| Detail.CsvLinesStart | components/MaterialDetailModal.tsx:31-41 | The export opens with the header and the eight basic rows in order |
| Detail.DescriptionRoundTrip | components/MaterialDetailModal.tsx:41 | The description row quotes the description, and reading the field back gives the description |
| Detail.MissingFieldsEmpty | components/MaterialDetailModal.tsx:35-40 | A missing optional field leaves its row ending after the caption |
| Detail.ExportCsv | components/MaterialDetailModal.tsx:29-58 | Appending line by line builds exactly the joined export lines |
| Detail.AddProperties | components/MaterialDetailModal.tsx:44-49 | The helper appends the lines of a present group and nothing for an absent one |
| Detail.FileName | components/MaterialDetailModal.tsx:65 | The name is the material name, `_`, the grade or `Data`, then `.csv` |
| Detail.ValidKeys | components/MaterialDetailModal.tsx:75 | A key is kept exactly when it is listed and its value is non-empty |
| Detail.TableKeys | components/MaterialDetailModal.tsx:72-77 | A table is shown only for a present group with at least one non-empty value, and only keys with non-empty values are shown |
| Detail.TableKeysOrdered | components/MaterialDetailModal.tsx:74-77 | With a known order key exactly the listed keys with a value are shown, in listed order; the table is absent when none has one |
| Detail.TableKeysUnordered | components/MaterialDetailModal.tsx:73-77 | Without a known order key the group's own keys with a value are shown in insertion order; the table is absent when none has one |
| Detail.OrderListsDistinct | components/MaterialDetailModal.tsx:5-10 | No order list names a key twice |
| Detail.UnlistedKeyDropped | components/MaterialDetailModal.tsx:74-75 | A key outside the aluminium order list (`TiB2`) is not shown |
| Detail.PhysicalThermal | components/MaterialDetailModal.tsx:203 | On a shared key the thermal value wins; each other key keeps its group's value; the rows list the physical keys in their order, then the thermal-only keys in theirs |
| Detail.DetailTablesSpec | components/MaterialDetailModal.tsx:199-219 | Steel and aluminium get composition, mechanical and merged physical-thermal tables with their own category's order keys; a coating gets four unordered tables starting with its characteristics; any other category gets none; every order key used is a known one |
| Detail.DetailRowsOrdered | components/MaterialDetailModal.tsx:199-219 | For steel and aluminium the composition rows are the category's listed elements that have a value, in listed order, and the physical-thermal rows follow the merged key order |
| Register.SetFieldSpec | pages/RegisterPage.tsx:37 | Setting a field changes that field and no other |
| Register.ClearError | pages/RegisterPage.tsx:38-44 | After typing, a field that showed an error has its key deleted, the other keys keeping their values and order; a field without an error leaves the errors unchanged |
| Register.ErrorsUpToSpec | pages/RegisterPage.tsx:64-70 | After `n` rules, exactly the failed ones among them have entries, nothing else does, and there is one key per failure |
| Register.ErrorsForKeys | pages/RegisterPage.tsx:64-70 | Each field has an entry exactly when its rule fails, and nothing else has one |
| Register.ErrorsForUnfold | pages/RegisterPage.tsx:64-70 | The map equals the six conditional assignments in source order, with their keys and messages |
| Register.FailCountZero | pages/RegisterPage.tsx:73 | No key is recorded exactly when no rule fails |
| Register.ValidationErrorsSpec | pages/RegisterPage.tsx:63-74 | Each field errs exactly when its rule fails: username under 2, invalid e-mail, invalid phone, code under 4, password under 6, mismatched confirmation. The form is valid exactly when all rules hold |
| Register.RegisterPage.constructor | pages/RegisterPage.tsx:7-18 | The page opens with an empty form, no errors, no countdown and no toast |
| Register.RegisterPage.HandleChange | pages/RegisterPage.tsx:35-45 | Only the typed field changes, and only its error is deleted |
| Register.RegisterPage.HandleSendCode | pages/RegisterPage.tsx:47-61 | Nothing happens during a countdown. A missing or malformed phone records its own message and sends nothing. A valid phone starts the 60-second countdown and the toast |
| Register.RegisterPage.Record | pages/RegisterPage.tsx:65 | One rule's conditional assignment |
| Register.RegisterPage.Validate | pages/RegisterPage.tsx:63-74 | The errors become the validation errors of the form, and the result is true exactly when there are none |
| Register.RegisterPage.Tick | pages/RegisterPage.tsx:20-26 | A second takes a running countdown down by one and leaves 0 at 0 |
| Auth.SetField | pages/AuthPage.tsx:39-42 | The named field takes the value and the others are kept |
| Auth.PasswordLoginErrors | pages/AuthPage.tsx:75-83 | Exactly the empty ones of e-mail and password are reported; the login proceeds exactly when both are filled in |
| Auth.PhoneLoginErrors | pages/AuthPage.tsx:84-100 | A missing phone and a malformed phone each get their own message, a missing code is reported, and nothing else; the login proceeds exactly for a valid phone with a code |
| Auth.BlankError | pages/AuthPage.tsx:43-45 | The field's error becomes blank with its key kept; the other errors are untouched |
| Auth.PhoneCheckErrors | pages/AuthPage.tsx:48-60 | A valid phone changes nothing; a missing or malformed one records its message; no other key changes |
| Auth.AuthPage.constructor | pages/AuthPage.tsx:9-20 | The page opens in password mode with an empty form, no errors, no countdown and no toast |
| Auth.AuthPage.HandleInputChange | pages/AuthPage.tsx:37-46 | The typed field changes and its error is blanked; nothing else changes |
| Auth.AuthPage.ValidatePhone | pages/AuthPage.tsx:48-60 | The result is true exactly for a valid phone, and the errors are updated by the phone check |
| Auth.AuthPage.HandleSendCode | pages/AuthPage.tsx:62-67 | Nothing happens during a countdown; otherwise the phone is checked, and only a valid phone starts the countdown and the toast |
| Auth.AuthPage.HandleLogin | pages/AuthPage.tsx:69-107 | The errors become the checks of the chosen method; the user is logged in and sent to `/performance` exactly when there are none |
| Auth.AuthPage.ToggleMethod | pages/AuthPage.tsx:109-112 | The method changes and every error is cleared |
| Auth.AuthPage.Tick | pages/AuthPage.tsx:22-28 | A second of the countdown effect, with nothing else changed |
| Experiments.FilteredExperimentsSpec | pages/ExperimentPage.tsx:13-19 | The list holds exactly the archive's experiments of the chosen type whose title, test code or material name contains the query, ignoring case, in archive order |
| Experiments.EmptyQueryKeepsType | pages/ExperimentPage.tsx:14-17 | An empty query keeps every experiment of the type, and the whole archive under `全部` |
| Experiments.CompletedCountSpec | pages/ExperimentPage.tsx:58 | The count is the number of completed records, at most the archive size, and grows by one per completed record |
| Experiments.StatusColorSpec | pages/ExperimentPage.tsx:21-27 | `Completed` and `Processing` have styles of their own, and every other status has the default |
| Equipments.HierarchySpec | pages/EquipmentPage.tsx:10-16 | Sub-categories are listed exactly for the three major categories, each list opening with `全部` |
| Equipments.FilteredEquipmentSpec | pages/EquipmentPage.tsx:69-75 | The list holds exactly the equipment of the major category whose type is the sub-category (any under `全部`), in catalogue order |
| Equipments.SubNarrows | pages/EquipmentPage.tsx:69-75 | A sub-category shows part of what `全部` shows |
| Equipments.EquipmentPage.constructor | pages/EquipmentPage.tsx:19-20 | The page opens on the first major category with `全部` |
| Equipments.EquipmentPage.HandleMajorCategoryChange | pages/EquipmentPage.tsx:51-56 | A different category starts from `全部`; the current one changes nothing |
| Equipments.EquipmentPage.SyncDeepLink | pages/EquipmentPage.tsx:34-49 | A linked item sets the major category to its own, and the sub-category to its type when the hierarchy lists it, so the item is on screen. Otherwise the route-state item's id goes to the URL |
| Parts.AllParts | pages/PartsPage.tsx:15-29 | The nested loops build exactly the flattened list |
| Parts.FlattenAppend | pages/PartsPage.tsx:17-18 | Flattening a concatenation concatenates the flattenings |
| Parts.PartCountAppend | pages/PartsPage.tsx:17-18 | The part count of a concatenation is the sum of the counts |
| Parts.FlattenSpec | pages/PartsPage.tsx:15-29 | The list has one entry per part, and each piece's entries form one block between those of the earlier and the later pieces |
| Parts.FlatEntries | pages/PartsPage.tsx:19-25 | Each entry stands for a part of its equipment, carries the first material with the part's id (or none), and has the part's category or `其他` |
| Parts.PartCategoriesSpec | pages/PartsPage.tsx:31-34 | The tabs are `全部`, then every category once, in first-occurrence order, and only categories some part has |
| Parts.FilteredPartsSpec | pages/PartsPage.tsx:36-38 | `全部` shows every part; any other tab shows exactly the parts of that category, in list order |
| Navbar.NoSelfNavigation | components/Navbar.tsx:55-73 | A click never navigates to the page shown. An anchor section goes to its own id as the hash, and a page section goes to its own path |
| Navbar.NavClickExamples | components/Navbar.tsx:56-61 | Materials on `/materials` and equipment on `/parts` do nothing; elsewhere they navigate |
| Navbar.ActiveSpec | components/Navbar.tsx:105 | A highlighted section ignores clicks, and an anchor section is never highlighted on a real pathname |
| Navbar.ScrolledSpec | components/Navbar.tsx:45-49 | The bar is solid past 20 pixels and stays solid further down; at exactly 20 it is transparent |
| Navbar.MenuSpec | components/Navbar.tsx:55-66 | A no-op click keeps the mobile menu; a navigating click closes it below 768 pixels and keeps it otherwise |
| Navbar.LoginLinkSpec | components/Navbar.tsx:136-148 | Logged out, the link is hidden on exactly `/auth` and `/register`; logged in, it is never shown |

## Left out

- Numbers are exact rationals (`real`), not IEEE-754 doubles. Rounding artefacts of
  `rawVal / max * 100` and of `parseFloat` are not modelled.
- `toLowerCase` lowers ASCII letters only, which leaves Chinese text unchanged. String
  length is the number of characters, with no UTF-16 surrogate pairs.
- Browser effects are left out: `alert` text, `Blob` and the download link,
  `window.print`, the clipboard, `localStorage`, the scroll listener and the toast timer.
  - The alert of a full basket is the `full` result of `HandleToggleComparison`.
  - The login flag is the `loggedIn` field of `AuthPage`.
  - The countdown keeps only its one-second decrement.
- `setSearchParams` and navigation are left out as effects.
  - The equipment deep link returns the new URL id.
  - `handleLogin` returns its target path.
  - The sign-up submit (`onSubmit`: alert, then go to `/auth`) is not modelled beyond
    `Validate`'s result.
- The material library's deep link is left out: opening a material by URL id, the tab
  switch to its category, and the automatic search. So are `openDetail`, `closeDetail`,
  `startContrast` and `hasActiveFilters`, which only feed the URL, the router or the
  styling.
- `Contrast.RadarData`: a data point stores scores and raw values in two maps, not in one
  object with `<id>_raw` keys. An id that collides with `subject`, `fullMark` or another
  id's `_raw` key is therefore not modelled.
- `Materials.SortSpec`: the library sort is specified as a stable insertion sort on a
  sequence, not as an in-place sort of the copied array. Stability is not stated as a
  contract.
- `JsObject.Put`: keys keep plain insertion order. The JavaScript rule that
  integer-like keys come first in ascending order is not modelled.
- JSX layout, CSS classes, icons, the chart colours and the header row of the comparison
  table are left out. The table's basic and other-characteristics rows are kept, with
  their cells.
- The other pages are not part of this model: landing, performance estimate, simulation,
  case studies, footer, router and auth guard. Neither is the AI prediction service, nor
  the fixture data beyond the two aluminium yield strengths used in
  `Contrast.AluminiumYieldExample`.
- The navigation bar's drop-down sub-links and the logout button are left out. Each is a
  plain link or a `localStorage` write.
