# FitFeast entry store, in Dafny

A model of the logic inside the FitFeast calorie dashboard, a small React app.
The model covers:

- the **entry store**: an ordered list of food entries, newest first, and a daily calorie goal;
- the operations that change the store: add an entry, remove entries by id, change the goal, the manual form and the AI "smart log";
- the **persistence** of the store in one local-storage slot, loaded at start and saved after every change;
- the **JSON backup** export and import;
- the **CSV export**;
- the **summary metrics**: calories remaining and percentage of the goal.

Everything is pure functions over immutable datatypes.
JavaScript numbers are `real`s and stored calorie totals are `int`s.
Anything the app gets from the outside is a parameter:

- ids (`Math.random`) and timestamps (`Date.now`);
- the estimator's answer (`Option<Draft>`);
- the storage slot and the picked backup file, already parsed;
- the number and date renderers of the CSV cells.

Modules:

- `Wrappers`: `Option`.
- `Js`: `Math.round` and number truthiness.
- `Types`: `types.ts`.
- `EntryStore`: the store operations and the daily total.
- `Session`: the form handlers and runs of store actions.
- `Persistence`: load and auto-save.
- `Backup`: backup export and import.
- `Csv`: the CSV export, plus a reader for one record that follows the grammar of section 2 of RFC 4180 with widened character classes.
- `Summary`: the metrics.
- `Dashboard`: a worked example that joins the store and the metrics.

Three behaviours of the code worth knowing:

- Importing a backup that parses to a value without an `entries` array does nothing and shows no alert. A file whose text is `null` raises the format alert.
- Entry ids are never checked for uniqueness. `UniqueIds` is an invariant the store keeps only when each new id is fresh (`AddPreservesUniqueIds`).
- A goal of 0 or less is accepted by the goal input. A stored goal of 0 loads as 2000. A backup goal of 0 keeps the current goal.

## Model

| member | source | states |
|---|---|---|
| Types.ParseCategoryIff | types.ts:19-28 | a string is read back as a category exactly when it is that category's value |
| Types.CategoryNamesDistinct | types.ts:19-28 | no two of the eight categories share a string value |
| Types.AllCategoriesComplete | types.ts:19-28 | the enumeration lists exactly eight members, each once |
| Types.SchemaMatchesCategories | services/geminiService.ts:16-19 | the category names the estimator's response schema demands are, in order, the enumeration's eight values, and no other string is among them |
| Types.EntryIsDraftPlusOmitted | types.ts:2-11 | an entry is exactly its five draft fields plus `id`, `timestamp` and `totalCalories`, the three fields `addEntry`'s argument omits |
| Types.Complete | App.tsx:56-60 | spreading a draft keeps all five of its fields and sets the three omitted ones as given |
| Types.EntryAdmitsUnlistedCategory | types.ts:6 | an entry's category may be a string outside the enumeration |
| Js.Round | App.tsx:61 | `Math.round(x)` is the integer `n` with `n - 0.5 <= x < n + 0.5` |
| Js.RoundUnique | App.tsx:61 | only one integer lies in that window, so the rounding is determined |
| EntryStore.NewEntry | App.tsx:56-62 | the new entry copies the draft's fields unchanged, takes the given id and timestamp, and its total is within half a calorie of serving size times rate |
| EntryStore.AddEntry | App.tsx:63 | adding grows the list by one; the head is the new entry, the tail is the old list unchanged, and the goal is kept |
| EntryStore.Without | App.tsx:67 | the filter keeps exactly the entries whose id differs, and no others |
| EntryStore.RemoveEntry | App.tsx:66-68 | after removal an entry is present exactly when it was present before and has a different id; the goal is kept |
| EntryStore.WithoutConcat | App.tsx:67 | filtering distributes over concatenation, so the survivors keep their relative order |
| EntryStore.WithoutSingleton | App.tsx:67 | a single entry survives exactly when its id differs |
| EntryStore.WithoutUnchangedIff | App.tsx:66-68 | removal leaves the list unchanged exactly when no entry carries the id |
| EntryStore.RemoveIdempotent | App.tsx:66-68 | removing an id twice equals removing it once |
| EntryStore.RemoveAbsent | App.tsx:66-68 | removing an id no entry carries changes nothing |
| EntryStore.SetGoalKeepsInvariants | App.tsx:191 | changing the goal keeps unique ids unique, keeps every total consistent, leaves the daily total as it was, and commutes with adding and removing entries |
| EntryStore.DailyTotal | App.tsx:54 | the daily total of entries with non-negative totals is non-negative |
| EntryStore.DailyTotalConcat | App.tsx:54 | the total of two concatenated lists is the sum of their totals |
| EntryStore.ReduceTotal | App.tsx:54 | the left-to-right `reduce` from 0 computes the daily total |
| EntryStore.DailyTotalAfterAdd | App.tsx:54-63 | after an add, the daily total is the old total plus the new entry's rounded calories |
| EntryStore.DailyTotalAfterRemove | App.tsx:54-68 | with unique ids, removing an entry's id lowers the daily total by exactly that entry's calories |
| EntryStore.AddPreservesUniqueIds | App.tsx:56-63 | adding an entry with a fresh id keeps ids unique |
| EntryStore.WithoutPreservesUniqueIds | App.tsx:66-68 | removal keeps ids unique |
| EntryStore.StoreOperationsPreserveTotals | App.tsx:56-68 | add and remove keep every entry's total equal to its rounded serving-times-rate product |
| Session.FormDraft | App.tsx:226-233 | the manual form's draft carries its fields unchanged, and its category string is always an enumeration value |
| Session.HandleManualAdd | App.tsx:86-97 | an empty food name changes nothing; otherwise the form is added as one entry and reset to (`""`, Other, 1, `"serving"`, 0) |
| Session.ManualAddEffect | App.tsx:86-97 | a manual add grows the list by one exactly when the name is non-empty, and the entry it adds carries the form's name and an enumeration category |
| Session.HandleSmartAdd | App.tsx:70-84 | with nothing else happening while the estimate is pending, a blank input or a failed estimate changes nothing; an estimate is added as one entry and the input is cleared |
| Session.SmartAddAcrossPendingEdits | App.tsx:70-81 | store actions taken while the estimate is pending are all kept under the new entry, the daily total is theirs plus the estimate's rounded calories, and text typed meanwhile is cleared |
| Session.SmartAddKeepsAnyCategory | App.tsx:75-76 | an entry added from an estimate keeps whatever category the estimator returned |
| Session.RunPreservesTotals | App.tsx:56-68 | no sequence of adds, removes and goal changes stores an entry whose total disagrees with its rounded serving-times-rate product |
| Session.RunOfAddsTotal | App.tsx:54-63 | after any sequence of adds, the daily total is the old total plus each added draft's rounded calories |
| Persistence.Load | App.tsx:33-45 | a missing or unparseable slot leaves the empty list and goal 2000; a stored object gives its entries (or none) and its goal (or 2000 when absent or 0); a loaded goal is never 0 |
| Persistence.LoadSave | App.tsx:33-52 | loading what auto-save wrote restores the entries exactly, and the goal exactly unless it is 0, which becomes 2000 |
| Persistence.LoadSaveExactIff | App.tsx:33-52 | the save-then-load round trip is exact if and only if the goal is not 0 |
| Persistence.LoadIsStable | App.tsx:33-52 | a loaded state survives another save and load unchanged |
| Backup.ImportBackup | App.tsx:131-150 | import is all-or-nothing: only a parsed file with an entries array restores; it then replaces the entries wholesale and the goal only when the file's goal is truthy; a file that fails to parse or parses to `null` raises the format alert, and nothing else does |
| Backup.ImportExported | App.tsx:121-146 | importing an exported backup of a state over any current state restores its entries, and its goal unless that goal is 0 |
| Backup.ImportExportedExactIff | App.tsx:121-146 | that round trip reproduces the saved state exactly when its goal is non-zero or the current goal is already 0 |
| Csv.EscapeQuotes | App.tsx:102 | doubling quotes never shortens a name and leaves a name without quotes unchanged |
| Csv.QuoteCell | App.tsx:102 | the food-name cell begins and ends with a quote |
| Csv.UnescapeEscape | App.tsx:102 | un-doubling the doubled name gives the name back |
| Csv.EscapeUnescape | App.tsx:102 | doubling an un-doubled text gives the text back, so the two are inverse in both directions |
| Csv.UnquoteQuote | App.tsx:102 | removing the outer quotes of the food-name cell and un-doubling recovers the name |
| Csv.RowCells | App.tsx:101-109 | each entry's line has as many cells as the header; the first cell unquotes to the food name; every other cell is its column's text with no quoting or escaping |
| Csv.Rows | App.tsx:101-109 | there is one line of cells per entry, in the entries' order |
| Csv.CsvLines | App.tsx:100-112 | the header comes first, then one line per entry in order, and every line has seven cells |
| Csv.ExportCsv | App.tsx:112 | the content starts with U+FEFF |
| Csv.SplitJoin | App.tsx:112 | cutting joined text at the separator gives back the parts, when no part contains the separator |
| Csv.ExportCsvLines | App.tsx:100-112 | when no cell holds a line break, the content after the mark is exactly the header line and then each entry's line, in order |
| Csv.ReadRecordJoin | App.tsx:112 | a comma-joined line of correctly quoted or plain cells reads back under RFC 4180 as exactly their values |
| Csv.HeaderReadsBack | App.tsx:100 | the header line reads back as the seven column names |
| Csv.AsWrittenRowReadsBack | App.tsx:101-112 | when the unquoted cells contain no comma, quote or line break, an entry's line reads back as its seven values, whatever the food name holds |
| Csv.LastValueSplits | App.tsx:101-112 | a line whose first value is quoted reads back with an unquoted last value cut in two at the comma it holds |
| Csv.AsWrittenRowSplitsTimestamp | App.tsx:108-112 | a localised timestamp of the form `date, time` splits in two, so the line reads back as eight fields under a seven-column header |
| Csv.QuotedRowReadsBack | App.tsx:101-112 | corrected row: when numbers render plainly, every entry's line reads back as exactly its seven values |
| Csv.ExportCsvQuoted | App.tsx:112 | the corrected content also starts with U+FEFF |
| Summary.Remaining | components/SummaryCards.tsx:11 | remaining is never negative; it is `goal - total` up to the goal and 0 past it; remaining plus `min(total, goal)` is the goal |
| Summary.Percentage | components/SummaryCards.tsx:12 | for a non-zero goal the percentage is at most 100. For a positive goal and non-negative total it is at least 0. For a positive goal it equals 100 exactly when the total reaches the goal, and below the goal it is total over goal times 100. For a negative goal it equals 100 exactly when the total is at or below the goal, and above the goal it is total over goal times 100 |
| Summary.OverGoalColourUnreachable | components/SummaryCards.tsx:12-64 | the percentage is clamped first, so the bar is always purple |
| Summary.RemainingMonotone | components/SummaryCards.tsx:11 | a larger total never leaves more remaining |
| Summary.PercentageMonotone | components/SummaryCards.tsx:12 | with a positive goal, a larger total never gives a smaller percentage |
| Dashboard.AppleScenario | App.tsx:201 | two 95-calorie apples on a fresh dashboard make one 190-calorie entry, a total of 190, 1810 remaining and 9.5% |

## Left out

- Rendering, styling, icons and `components/FoodTable.tsx`. The footer sum of `components/FoodTable.tsx` is the same fold as `DailyTotal`.
- The Gemini calls in `services/geminiService.ts`. An estimate is a parameter: any draft, or `None` for a failure. Nutrition tips and their one-second debounce are not modelled, because they are asynchronous and only fill a text box.
- The `isAiLoading` flag and React effect ordering. This includes the save on mount that runs before the loaded state is applied.
- Browser APIs: `localStorage`, `FileReader`, `Blob`, object URLs, downloads, `alert` and `console`. Storage and files are parsed values. The two import alerts are the `Outcome` of `ImportBackup`. The alert for a failed estimate is dropped: `HandleSmartAdd` leaves the UI unchanged and reports nothing.
- JSON text. `JSON.stringify`/`JSON.parse` are abstracted to the stored record. Ill-typed fields are not modelled: entries that are not entries, a goal that is a string, a truthy `entries` that is not an array. The import treats such a value like a missing one. The load keeps it, and the daily total's `reduce` then throws.
- Random ids, `Date.now`, `toLocaleString`, `toISOString`, the file names, and number-to-text conversion. These are parameters (`Renderers` for the CSV cells).
- IEEE-754 behaviour: Infinity, NaN, JSON turning NaN into null, and `-0` truthiness. Clearing the goal box gives `Number('')`, which is 0; the model represents that goal.
- Summary.Percentage: requires a non-zero goal. Clearing the goal box sets the goal to 0, and the source then divides by zero. A positive total shows 100 (Infinity clamped by `Math.min`), a zero total shows NaN, and a negative total shows -Infinity; a negative rate in the manual form makes a negative total. The model has no Infinity or NaN.
- Csv.ExportCsv: states the layout and the mark, not the rendered text of the cells. The timestamp cell uses `toLocaleString()`, which depends on the runtime's locale. The numeric cells are converted by `join` with the locale-independent Number-to-String conversion, which writes only digits, `.`, `-`, `e` and `+` for a finite number. That text always meets the `Plain` requirement that `AsWrittenRowReadsBack`, `AsWrittenRowSplitsTimestamp` and `QuotedRowReadsBack` put on the rendered numbers. The model takes the renderers as parameters and does not define that conversion.
- Csv.ReadRecordJoin: reads a single record. Line breaks inside a quoted food name are legal in RFC 4180 and are not split here. Lines end with `\n`, not the CRLF that RFC 4180 names. The character classes are wider than RFC 4180's: TEXTDATA admits only printable ASCII (%x20-21, %x23-2B, %x2D-7E), while `Plain` admits any character but comma, quote, CR and LF. So tabs, control characters and non-ASCII text such as the U+202F that some locales put before "PM" read as field text, as spreadsheets read them.

## Findings

| source | as written | input that shows it | evidently intended | confidence | as-written member | corrected member |
|---|---|---|---|---|---|---|
| App.tsx:101-112 | only the food-name cell is quoted; category, unit and the `toLocaleString()` timestamp are written bare | an entry logged in a locale whose date text is `10/10/2026, 3:45:12 PM`: the line reads back as eight fields under a seven-column header. A unit such as `cup, chopped` does the same | every text cell quoted, so each line reads back as the seven header columns | medium, not executed | Csv.AsWrittenRowSplitsTimestamp | Csv.QuotedRowReadsBack |
