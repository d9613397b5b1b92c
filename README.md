# Fluff-Fabriken price list and opening hours, in Dafny

The Fluff-Fabriken website loads its price list and its opening hours from two
published spreadsheets (`js/main.js`). This project models the data path of
that script and proves what it does:

- `parseCSV`: raw sheet text to records. It trims the input and cuts it into
  lines. It takes tab or comma as the delimiter, judging from the header line
  alone. It cleans every header and cell (trim, then drop one leading and one
  trailing `"`). It pairs headers with cells, last header of a name winning.
- `groupByCategory`: records to an insertion-ordered grouping by `Kategori`,
  with the fallback group `Övriga tjänster`.
- `renderPriceList`, `renderHours`, `showError`: what the page container
  holds afterwards, as a sequence of element values.
- `loadPrices` and `loadHours`: the four end states of each loader (not
  configured, could not load, nothing found, shown) and the notice or list
  each leaves on the page.

Modules, one file each:

- `Wrappers`: the `Option` type.
- `Text`: JavaScript's `trim`, one-character `split` (with its inverse `Join`)
  and the quote-stripping `replace(/^"|"$/g, '')`.
- `Csv`: `parseCSV`. There is also a `Sheet` writer, so the lemmas can state
  what reading back a written sheet gives.
- `Grouping`: `groupByCategory`. It is written as a method with a loop over an
  ordered group list and a category index, as `groupByCategory` does with its `Map`.
  It is proved equal to a left fold `Groups`, and `Groups` is proved equal to
  an independent description (distinct categories in first-appearance order,
  each with the services of that category, in order).
- `Render`: the container is a class whose `children` the render methods
  reset and then extend. Each method is proved to leave `children` equal to a
  view function of its input.
- `Loader`: the loaders are methods over the container and the fetch outcome.
  They are proved to leave the content of a view function of the URL and the
  outcome, and to log exactly when loading failed.
- `Examples`: small worked sheets taken from end to end.

Strings are `seq<char>`. JavaScript's `trim` removes the ECMAScript
WhiteSpace and LineTerminator characters, listed in full in `Text.IsSpace`.
A record is a `map<string, string>`, filled header by header, so a repeated
header name keeps the value of its last position.

A cleaned field can begin or end with white space, but only on a side where
a quote was removed: `" a"` cleans to ` a`. `Csv.Clean` states exactly that,
and `Examples.QuotedSpaceSurvives` shows it.

## Model

| member | source | states |
|---|---|---|
| Text.Trim | js/main.js:46 | `data.trim()` is the slice of the input left between a run of leading and a run of trailing white space; what was cut off is all white space, and the result neither starts nor ends with white space |
| Text.TrimIdempotent | js/main.js:46 | trimming twice is trimming once |
| Text.TrimEmptyIffAllSpace | js/main.js:46 | a string trims to the empty string exactly when it is all white space |
| Text.TrimPadded | js/main.js:46 | white space around an unpadded text is removed and nothing else |
| Text.StripQuotes | js/main.js:52 | the quote strip, case by case: quotes at both ends both go, a quote at one end only goes from that end, a text unquoted at both ends is unchanged, and a lone `"` becomes empty |
| Text.StripQuotesUnwraps | js/main.js:52 | a text wrapped in one pair of quotes gets back exactly its content, whatever the content holds |
| Text.StripQuotesOnce | js/main.js:52 | of two quotes at each end only the outer one goes: inner quotes are kept |
| Text.StripQuotesLeading | js/main.js:52 | a leading quote with no trailing one is removed |
| Text.StripQuotesTrailing | js/main.js:52 | a trailing quote with no leading one is removed |
| Text.StripQuotesLone | js/main.js:52 | a field that is a single `"` becomes empty |
| Text.StripQuotesUnquoted | js/main.js:52 | a text with no quote at either end is left alone |
| Text.Split | js/main.js:46 | `split` on one character gives at least one piece, and no piece contains the separator |
| Text.JoinSplit | js/main.js:46 | joining the pieces with the separator gives back the split text |
| Text.SplitJoin | js/main.js:46 | splitting a join of separator-free pieces gives back the pieces, empty ones included |
| Text.SplitCount | js/main.js:46 | there is one piece more than there are separators |
| Text.CountPositive | js/main.js:46 | the separator count is positive exactly when the separator occurs |
| Text.SplitAllSpace | js/main.js:55 | every piece of a white-space-only line is white space |
| Csv.Delimiter | js/main.js:50 | the delimiter is tab exactly when the header line contains a tab, and comma exactly when it does not |
| Csv.Clean | js/main.js:52-55 | a cleaned field is no longer than the trimmed field, and it starts (ends) with white space only when the trimmed field started (ended) with a quote |
| Csv.CleanQuoted | js/main.js:52-55 | a quoted field with white space around it cleans to exactly its content |
| Csv.CleanWrapped | js/main.js:52-55 | a field that is exactly a quoted text, with nothing around the quotes, cleans to that text |
| Csv.CleanUnquoted | js/main.js:52-55 | a field with no quote at either end after trimming is only trimmed |
| Csv.Cells | js/main.js:52-55 | a line split on the delimiter gives one cleaned field more than it has delimiters, each no longer than its piece of the line |
| Csv.Fill | js/main.js:56-59 | assigning the headers in order leaves the last assigned header holding its own cell, or `''` past the end of the cells |
| Csv.FillKeys | js/main.js:56-59 | after the first `n` assignments the keys are exactly the first `n` header names |
| Csv.FillValueSource | js/main.js:56-59 | every value is the cell (or `''`) at some position among the first `n` whose header has that key |
| Csv.FillLastWins | js/main.js:56-59 | a header's key holds the cell at the header's last position |
| Csv.ParseCsv | js/main.js:45-62 | `parseCSV` gives one record for each line after the header line, so none for an empty input or a header line alone |
| Csv.ParseRecordCount | js/main.js:46-54 | there is one record per newline of the trimmed input |
| Csv.ParseEmptyIffSingleLine | js/main.js:46-47 | the result is empty exactly when the trimmed input has no newline: empty input and a header line alone both give nothing |
| Csv.LinesRebuildInput | js/main.js:46 | the lines are newline-free and join back to the trimmed input |
| Csv.RecordSource | js/main.js:50-55 | record `i` is built from the header line and line `i + 1`, both split on the delimiter the header line chose |
| Csv.ParsedLine | js/main.js:54-55 | record `i` of a text cut into lines needs at least two lines and comes from line `i + 1` |
| Csv.RecordFields | js/main.js:56-59 | a record's keys are exactly the header names; the key of a header's last position holds the cell there or `''`; every value comes from a position below the header count, so extra cells never appear |
| Csv.BlankLineRecord | js/main.js:54-59 | a white-space-only interior line still gives a record, and all its values are `''` |
| Csv.ParseIgnoresPadding | js/main.js:46 | white space around the whole input does not change the result |
| Csv.CellsOfJoin | js/main.js:52-55 | a line of plain fields joined by the delimiter splits and cleans back into those fields |
| Csv.DelimiterOfHeaderLine | js/main.js:50 | a written header line makes the parser choose the delimiter it was written with |
| Csv.LinesOfSheet | js/main.js:46 | the lines of a written, unpadded sheet are its header line and its row lines |
| Csv.ParseOfSheet | js/main.js:45-62 | reading back a written sheet of plain fields gives one record per row, in order, built from exactly that row |
| Grouping.CategoryChoice | js/main.js:71 | a service's category is its own non-empty `Kategori`, or `Övriga tjänster` when that is missing or empty; it is never empty |
| Grouping.Groups | js/main.js:67-79 | the grouping has at most one group per service, and no group exactly when there is no service |
| Grouping.GroupByCategory | js/main.js:67-79 | the loop over the services, with its map from category to group, returns `Groups(services)` |
| Grouping.GroupsByDistinctCategories | js/main.js:67-79 | group `i` is the `i`-th distinct category in first-appearance order, paired with exactly the services of that category in their original order |
| Grouping.GroupKeys | js/main.js:67-79 | the group keys are the distinct categories in first-appearance order |
| Grouping.GroupsDistinctCategories | js/main.js:72-74 | no category has two groups |
| Grouping.GroupsFirstAppearanceOrder | js/main.js:70-76 | an earlier group's category first appears before a later group's |
| Grouping.GroupsHomogeneous | js/main.js:71-75 | no group is empty, and a group holds only services of its own category, `Kategori` or `Övriga tjänster` when that is missing or empty |
| Grouping.GroupsCover | js/main.js:70-76 | every service is in the group of its category |
| Grouping.GroupsSize | js/main.js:70-76 | the group sizes add up to the number of services |
| Grouping.IndexedAddTo | js/main.js:72-75 | with the category index at hand, a service of a new category opens a group at the end, and one of a known category is appended to that group alone |
| Render.PriceListView | js/main.js:90-128 | the price list has one block per group, in order, titled by the group's category and holding one line per service |
| Render.HoursView | js/main.js:196-220 | the hours list has one line per record, in order |
| Render.ErrorView | js/main.js:138-143 | the notice is the message, followed by the fallback text as a second paragraph exactly when that text is non-empty |
| Render.Container.Replace | js/main.js:88 | `innerHTML = …` replaces the whole content |
| Render.Container.Append | js/main.js:127 | `appendChild` adds one element at the end |
| Render.RenderPriceList | js/main.js:84-129 | with no container nothing changes; otherwise the container ends up holding exactly `PriceListView(groups)`, its old content gone |
| Render.RenderHours | js/main.js:190-221 | with no container nothing changes; otherwise the container ends up holding exactly `HoursView(hours)` |
| Render.ShowError | js/main.js:134-144 | with no container nothing changes; otherwise the container holds the notice alone |
| Render.PriceListShape | js/main.js:98-125 | line `j` of block `i` shows service `j` of group `i`: name and price default to `''`; a description is present exactly when `Beskrivning` is non-empty, and then it is that text |
| Render.HoursShape | js/main.js:196-220 | line `i` shows record `i`: day and time default to `''`; a note is present exactly when `Notering` is non-empty, and then it is that text |
| Render.PriceListRows | js/main.js:90-128 | the price list shows as many service lines as the groups hold services |
| Render.RenderedServiceCount | js/main.js:174-175 | rendering grouped services shows every service exactly once in count |
| Loader.StageOf | js/main.js:149-181 | the state is "not configured" exactly when the URL is empty, "could not load" exactly when a configured fetch failed, and "nothing found" exactly when the fetched sheet has at most one line after trimming |
| Loader.PricesView | js/main.js:149-181 | every branch of `loadPrices` leaves some content in the price container |
| Loader.HoursPageView | js/main.js:226-257 | every branch of `loadHours` leaves some content in the hours container |
| Loader.LoadPrices | js/main.js:149-181 | with no container nothing changes; otherwise the container ends up holding `PricesView(url, outcome)`; the error is logged exactly when the fetch failed |
| Loader.LoadHours | js/main.js:226-257 | the same for the hours container and `HoursPageView(url, outcome)` |
| Loader.PricesOutcome | js/main.js:149-181 | in each of the four states the price container holds its own notice (message plus the same contact line) or a non-empty list of category blocks, and the content tells the state apart |
| Loader.HoursOutcome | js/main.js:226-257 | the same for hours; the shown list has one line per record, and at least one |
| Loader.UnconfiguredIgnoresFetch | js/main.js:154-157 | without a URL the content does not depend on any fetch outcome |
| Loader.SingleLineSheetIsNothingFound | js/main.js:169-172 | a fetched sheet with at most one line is the "nothing found" state for both loaders, with its notice |
| Loader.GroupsNonEmpty | js/main.js:174 | grouping a non-empty sheet gives at least one group |
| Examples.PriceSheetEndToEnd | js/main.js:149-181 | a three-column price sheet with a final newline shows a single `Hår` block with its two services in sheet order, neither with a description |
| Examples.PriceSheetRecords | js/main.js:45-62 | that sheet parses to its two records, in sheet order |
| Examples.PriceSheetParse | js/main.js:46 | the final newline sent with the sheet changes nothing: the records are the same two |
| Examples.TabSheetKeepsCommas | js/main.js:50-55 | with a tab in the header line, a comma and the space after it stay inside a value |
| Examples.HoursSheetEndToEnd | js/main.js:226-257 | an hours sheet with an empty note on one day shows a note on the other day only |
| Examples.OuterQuotesOnly | js/main.js:52-55 | of doubled quotes around a field only the outer pair is removed |
| Examples.QuotedSpaceSurvives | js/main.js:52-55 | white space inside the quotes survives, so a cleaned field can begin with white space |
| Examples.GroupingExample | js/main.js:67-79 | categories `A`, `B`, `A` give the groups `A` (both services, in order) then `B`; a service without `Kategori` goes to `Övriga tjänster` |

## Left out

- The mobile navigation toggle (js/main.js:21-35) is left out. It only toggles a CSS class in DOM event handlers and carries no data logic.
- `fetch`, `await`, `response.ok` and `response.text()` (js/main.js:160-166, 237-243) are not modelled as operations. They are network I/O, so their combined result is an input value, `FetchOutcome`: a body, a response that is not ok, or a throw.
- `console.error` (js/main.js:178, 254) is output only. It is modelled as the `logged` result of the loaders.
- The `DOMContentLoaded` start-up (js/main.js:262-265) is left out. It starts both loaders concurrently, but they share no state, so each loader is modelled on its own and the interleaving is not.
- The URL constants (js/main.js:13, 16) are configuration. The URL is a parameter of the loaders.
- `document.getElementById` is modelled by passing the container, or `null` when there is none. `showError` finds the same element the loader found, so the loader hands its container to `ShowError`.
- DOM details are not modelled: element creation, class names, the `<br>` before a description, and the HTML text of `showError`. Elements are values carrying only their texts, and `innerHTML` with a template string becomes one notice value. In particular, the missing HTML escaping of the message in `showError` is not modelled.
- An exception thrown while parsing, grouping or rendering would also land in the `catch` of the loaders. None of these steps can throw on the inputs modelled here, so that path is modelled for the fetch only.
- JavaScript object quirks are not modelled. Key order, the reordering of integer-like header names, and a header named `__proto__` (whose assignment does not create a key) are outside the `map` model of a record.
- The JavaScript `Map` API is modelled by an ordered sequence of groups and a category-to-position index. Its key comparison (SameValueZero on strings) is string equality.
