# FeedFlow analytics and feedback list — a Dafny model

FeedFlow's admin front end has two screens with data shaping worth modelling.

The **analytics screen** (`src/component/analytic.tsx`) fetches a statistics record. The record holds:
- the total, positive and negative feedback counts;
- a sector breakdown, which maps each sector name to its own three counts.

From that record the screen:
- chooses the statistics URL for the selected time range;
- computes the headline percentages;
- projects the breakdown into chart columns;
- shows the average daily volume and the top sector;
- offers three exports:
  - a CSV report, a row table serialised with bare numbers, double-quoted strings, commas and newlines;
  - a two-sheet spreadsheet;
  - a two-table PDF.

The **feedback list** (`src/component/feedback.tsx`) filters the fetched records by polarity. It has an "ALL" bypass and shows a badge with the count and "Item"/"Items".

The model is five modules:

- `Wrappers`: `Option`, standing for `null`, `undefined` and a failed lookup.
- `Strings`: the JavaScript conversions the code relies on:
  - `String(n)` for a count;
  - `parseInt` on a time-range value;
  - `join`;
  - `Split`, the reading side of `join`, used to state the serialiser's round trips.
- `Analytics`: the statistics record, the URL, the percentages, the time-range labels, the day divisor, the sector columns and the top sector.
- `ReportExport`: the CSV table, its serialisation, and the spreadsheet and PDF tables handed to the file writers.
- `FeedbackList`: the polarity filter, the badge text and the empty-state condition.

Modelling choices:
- The breakdown is a sequence of `SectorCounts` in the object's key order (insertion order). `UniqueNames` states that object keys are distinct.
- `Math.round` of a quotient of counts is the exact round-half-up `(2n + d) / (2d)`.
- A zero divisor is modelled as JavaScript evaluates it: `NaN` for `0/0`, `Infinity` otherwise. Both are values of `Rounded`, and the text they print is `"NaN"` and `"Infinity"`.
- The source divides by a sector's total and by the feedback total without a guard. So the export functions take any counts, and the percentage lemmas ask for a positive total.
- `exportToCSV` and `exportToExcel` build their tables with `push` inside a `forEach`. They are modelled as methods whose loops (`BuildCsvContent`, `BuildSectorData`) are proved against the table functions `CsvRows` and `ExcelSectorRow`.
- The PDF's `map` and the serialiser's `map`/`join` are pure functions.
- The reduce behind "Top Sector" has no initial value. On an empty sector list it throws, which is modelled as `None`.

## Model

| member | source | states |
|---|---|---|
| Strings.NatToString | src/component/analytic.tsx:279 | `String(n)` is a non-empty run of decimal digits with no leading zero; one digit exactly when n < 10 |
| Strings.DigitPrefix | src/component/analytic.tsx:212 | the digit prefix `parseInt` reads is a prefix of the input made of digits, stopped by a non-digit or the end |
| Strings.ParseInt | src/component/analytic.tsx:212 | `parseInt` fails (NaN) exactly when the string is empty or does not begin with a digit |
| Strings.DigitPrefixOfDigits | src/component/analytic.tsx:212 | on an all-digit string `parseInt` reads the whole string |
| Strings.DigitPrefixStops | src/component/analytic.tsx:212 | `parseInt` stops at the first non-digit after the digits |
| Strings.DigitsValueOfNatToString | src/component/analytic.tsx:279 | the digits `String(n)` writes have the value n |
| Strings.ParseIntOfNatToString | src/component/analytic.tsx:212 | `parseInt(String(n)) == n` |
| Strings.NatToStringInjective | src/component/analytic.tsx:279 | different counts are written differently |
| Strings.Split | src/component/analytic.tsx:276-282 | the reference inverse of the two joins there (the source calls no `split`): at least one piece, and no piece holds the separator |
| Strings.SplitSeparatorFree | src/component/analytic.tsx:280 | a separator-free prefix stays together in the first piece |
| Strings.SplitJoin | src/component/analytic.tsx:280-282 | splitting the `join` of separator-free parts gives the parts back |
| Strings.JoinSplit | src/component/analytic.tsx:280-282 | joining the pieces of a split gives the string back, for every string |
| Strings.Join | src/component/analytic.tsx:280-282 | `join` with a one-character separator; what it promises is stated by SplitJoin, JoinSplit and JoinAvoids |
| Analytics.StatsUrlShape | src/component/analytic.tsx:111-114 | "all" asks for the bare endpoint with no query or trailing slash; any other value v asks for endpoint + "/?days=" + v |
| Analytics.StatsUrlInjective | src/component/analytic.tsx:111-114 | different time-range values request different URLs |
| Analytics.StatsUrl | src/component/analytic.tsx:111-114 | the URL for a time-range value; its two forms are proved in StatsUrlShape and it is injective by StatsUrlInjective |
| Analytics.RoundedText | src/component/analytic.tsx:251 | the text of a rounded number is non-empty and holds no comma, newline or quote |
| Analytics.RoundDiv | src/component/analytic.tsx:141 | exact round-half-up of n / d; the nearest-integer bound is RoundDivBounds and its uniqueness RoundDivUnique |
| Analytics.RoundDivBounds | src/component/analytic.tsx:141 | the rounded quotient r satisfies 2n - d < 2dr <= 2n + d: nearest integer, halves up |
| Analytics.RoundDivUnique | src/component/analytic.tsx:141 | that bound determines the rounding uniquely |
| Analytics.Quotient | src/component/analytic.tsx:141 | `Math.round(n / d)` is a whole number exactly when d > 0, NaN exactly for 0/0, Infinity otherwise |
| Analytics.Percentage | src/component/analytic.tsx:141 | the rounded percentage of a part; bounds, monotonicity and complementary sums are PercentageBounds, PercentageMonotone and ComplementaryPercentages |
| Analytics.PercentageBounds | src/component/analytic.tsx:140-145 | with 0 <= part <= total and total > 0 the percentage is a whole number in 0..100, 0 for part 0 and 100 for part == total |
| Analytics.PercentageMonotone | src/component/analytic.tsx:140-145 | a larger part never gets a smaller percentage |
| Analytics.ComplementaryPercentages | src/component/analytic.tsx:140-145 | two parts that make up the total get percentages summing to 100 or 101 |
| Analytics.PercentageExamples | src/component/analytic.tsx:263-264 | 80/100 is 80, 50/60 is 83, 10/60 is 17, 101/200 is 51, 0/0 is NaN and 3/0 is Infinity |
| Analytics.PositivePercentage | src/component/analytic.tsx:140-142 | 0 while no statistics are loaded; otherwise the positive share of a positive total, in 0..100 |
| Analytics.NegativePercentage | src/component/analytic.tsx:143-145 | 0 while no statistics are loaded; otherwise the negative share of a positive total, in 0..100 |
| Analytics.FindLabel | src/component/analytic.tsx:255 | `find(...)?.label` is undefined exactly when no range has the value |
| Analytics.FindLabelFirst | src/component/analytic.tsx:255 | the found label belongs to the first range whose value matches |
| Analytics.TimeRangeLabels | src/component/analytic.tsx:94-99 | "7", "30", "90" and "all" each map to their own label; every other value maps to nothing |
| Analytics.ExportLabel | src/component/analytic.tsx:253-256 | the summary's time-range cell is one of the four labels or "", and "" exactly for an unknown value; it is plain CSV text |
| Analytics.DayDivisor | src/component/analytic.tsx:212 | 90 for "all"; NaN exactly when the value is not "all" and does not begin with a digit |
| Analytics.DayDivisorOfCount | src/component/analytic.tsx:857 | a range written as a day count divides by that count |
| Analytics.DayDivisorOfFixedRanges | src/component/analytic.tsx:212 | the divisors for "7", "30", "90" and "all" are 7, 30, 90 and 90 |
| Analytics.TrendLength | src/component/analytic.tsx:212-214 | one trend point per day of the range, none for NaN; the values for the four ranges and for day counts are TrendOfFixedRanges and TrendOfCount |
| Analytics.TrendLabels | src/component/analytic.tsx:214 | one label per trend point; that each label reads back as its day and that labels are distinct is TrendLabelNumber and TrendLabelsDistinct |
| Analytics.TrendOfFixedRanges | src/component/analytic.tsx:212-214 | the ranges "7", "30", "90" and "all" give trends of 7, 30, 90 and 90 days, and the week runs from "Day 1" to "Day 7" |
| Analytics.TrendOfCount | src/component/analytic.tsx:212-214 | a range written as a day count n has n trend points and n labels |
| Analytics.TrendLabelNumber | src/component/analytic.tsx:214 | label i starts with "Day " and the number after it reads back (`parseInt`) as i + 1 |
| Analytics.TrendLabelsDistinct | src/component/analytic.tsx:214 | no two trend points share a label |
| Analytics.AverageDaily | src/component/analytic.tsx:855-858 | NaN for a NaN divisor; for a positive divisor d, the total divided by d rounded half up |
| Analytics.Names | src/component/analytic.tsx:160 | the keys of the breakdown, one per entry in entry order |
| Analytics.SectorNames | src/component/analytic.tsx:160 | no sectors while no statistics are loaded, else the breakdown keys |
| Analytics.Find | src/component/analytic.tsx:162 | `sector_breakdown[name]` misses exactly when no entry has that name; a hit is an entry with that name |
| Analytics.FindUnique | src/component/analytic.tsx:162 | with distinct keys, looking up an entry's key finds that entry |
| Analytics.TotalOf | src/component/analytic.tsx:168 | a sector's total; ColumnsAligned proves it is the entry's own total for every key |
| Analytics.PositiveOf | src/component/analytic.tsx:162 | a sector's positive count; ColumnsAligned proves it is the entry's own count for every key |
| Analytics.NegativeOf | src/component/analytic.tsx:165 | a sector's negative count; ColumnsAligned proves it is the entry's own count for every key |
| Analytics.PositiveColumn | src/component/analytic.tsx:161-163 | the positive column is as long as the sector labels |
| Analytics.NegativeColumn | src/component/analytic.tsx:164-166 | the negative column is as long as the sector labels |
| Analytics.TotalColumn | src/component/analytic.tsx:167-169 | the total column is as long as the sector labels |
| Analytics.ColumnsAligned | src/component/analytic.tsx:160-169 | no data gives empty columns; otherwise position i of each column holds the count of the sector labelled i |
| Analytics.ReduceTop | src/component/analytic.tsx:870-875 | the reduce over a non-empty name list ends on one of the names |
| Analytics.TopSector | src/component/analytic.tsx:870-875 | no top sector exactly when there are no sectors; otherwise one of the sectors |
| Analytics.LastMaximumStep | src/component/analytic.tsx:871-874 | one step of the strict `>` comparison keeps the last maximum over a range one longer |
| Analytics.TopIndex | src/component/analytic.tsx:870-875 | the position the reduce ends on lies within the names seen |
| Analytics.TopIndexIsLastMaximum | src/component/analytic.tsx:870-875 | that position has the largest total, and every later position has a smaller one |
| Analytics.ReduceIsTopIndex | src/component/analytic.tsx:870-875 | the reduce over the first names ends on the name of that position |
| Analytics.ReduceStep | src/component/analytic.tsx:871-874 | one step of the reduce keeps `a` only when its total is strictly larger |
| Analytics.TopSectorIsLastMaximum | src/component/analytic.tsx:870-875 | on a non-empty breakdown the top sector has a total >= every other, and on ties the later sector wins |
| Analytics.LastMaximumUnique | src/component/analytic.tsx:870-875 | only one position is the last maximum |
| ReportExport.CellTextShape | src/component/analytic.tsx:279 | number cells are bare digits; string cells are wrapped in `"` with the content copied unchanged, quotes not escaped |
| ReportExport.CellText | src/component/analytic.tsx:279 | a cell's CSV text; its shape is CellTextShape and the characters it adds are CellTextAvoids |
| ReportExport.CellTexts | src/component/analytic.tsx:278-279 | one text per cell, each being that cell's text |
| ReportExport.RowTexts | src/component/analytic.tsx:277-281 | one text per row, each being that row's text |
| ReportExport.RowText | src/component/analytic.tsx:277-281 | a row's line; it splits back into its cell texts by RowFields |
| ReportExport.CsvText | src/component/analytic.tsx:276-282 | the report text; it splits back into one line per row by CsvTextLines and CsvReportLines |
| ReportExport.PercentCell | src/component/analytic.tsx:251-252 | a percentage followed by "%", as a string cell; plain text by PercentCellPlain |
| ReportExport.SummaryRows | src/component/analytic.tsx:246-256 | the header and six summary rows; their layout, percentages and plainness are CsvLayout, SummaryPercentages and SummaryPlain |
| ReportExport.SectorRow | src/component/analytic.tsx:262-272 | one sector's row with its own-total percentages; its fields are SectorCellTexts and SectorLineFields |
| ReportExport.CsvRows | src/component/analytic.tsx:246-273 | the whole CSV table; its layout is CsvLayout, and BuildCsvContent is proved to build it |
| ReportExport.SectorRows | src/component/analytic.tsx:385-396 | one sector row per breakdown entry |
| ReportExport.SectorRowsPush | src/component/analytic.tsx:262-273 | pushing entry i's row extends the rows of the entries before it |
| ReportExport.BuildCsvContent | src/component/analytic.tsx:246-273 | the literal table followed by the rows the `forEach` pushes is the CSV table: summary rows, blank row, header, one row per sector |
| ReportExport.ExportToCsv | src/component/analytic.tsx:243-282 | nothing without statistics; otherwise the serialisation of the CSV table |
| ReportExport.CsvLayout | src/component/analytic.tsx:246-273 | the table has 9 + n rows: the seven summary rows, the blank row, the sector header, and one row per sector in breakdown order |
| ReportExport.SummaryPercentages | src/component/analytic.tsx:251-252 | the two percentage rows hold the positive and negative shares of all feedback followed by "%" |
| ReportExport.CellTextAvoids | src/component/analytic.tsx:279 | a cell's text holds a character other than a quote or digit only where its string does |
| ReportExport.JoinAvoids | src/component/analytic.tsx:280 | `join` adds no character other than the separator |
| ReportExport.RowTextAvoids | src/component/analytic.tsx:277-281 | a row's text holds such a character only where one of its strings does |
| ReportExport.RowFields | src/component/analytic.tsx:277-281 | splitting a non-empty row's text at commas gives its cell texts back when no string cell holds a comma |
| ReportExport.CsvTextLines | src/component/analytic.tsx:276-282 | splitting the CSV at newlines gives one line per row, with no trailing newline, when no cell holds a newline |
| ReportExport.PlainRowSafe | src/component/analytic.tsx:279 | a plain-text row holds no comma or newline in any cell |
| ReportExport.PercentCellPlain | src/component/analytic.tsx:251-252 | a percentage cell is a string of plain text |
| ReportExport.LabelRowPlain | src/component/analytic.tsx:247-256 | a two-cell summary row of plain labels is plain |
| ReportExport.SummaryLabelsPlain | src/component/analytic.tsx:247-256 | the summary labels hold no comma or newline |
| ReportExport.CountRowsPlain | src/component/analytic.tsx:247-250 | the header and the three count rows are plain |
| ReportExport.RateRowsPlain | src/component/analytic.tsx:251-256 | the percentage rows and the time-range row are plain |
| ReportExport.SectorHeaderPlain | src/component/analytic.tsx:258 | the sector header is plain |
| ReportExport.SummaryPlain | src/component/analytic.tsx:246-259 | the nine literal rows are plain throughout |
| ReportExport.SectorRowSafe | src/component/analytic.tsx:265-272 | a sector row holds a comma or newline only where its name does |
| ReportExport.CsvReportLines | src/component/analytic.tsx:257-282 | with no newline in a sector name, the report has 9 + n lines, one per row; line 8 is empty and line 9 is the header |
| ReportExport.SectorCellTexts | src/component/analytic.tsx:263-272 | a sector line's six fields: the quoted name, three bare counts, and the two quoted own-total percentages with "%" |
| ReportExport.SectorLineFields | src/component/analytic.tsx:276-282 | a sector line without a comma in its name splits at commas into exactly those six fields |
| ReportExport.SalesRowExample | src/component/analytic.tsx:262-282 | the sector Sales (60 total, 50 positive, 10 negative) is written `"Sales",60,50,10,"83%","17%"` |
| ReportExport.SalesRowCells | src/component/analytic.tsx:263-272 | the row of that sector is [Sales, 60, 50, 10, 83%, 17%] |
| ReportExport.SalesCellTexts | src/component/analytic.tsx:279 | its cell texts quote the strings and leave the numbers bare |
| ReportExport.SalesFieldsJoin | src/component/analytic.tsx:280 | joined with commas they give the line above |
| ReportExport.SalesTailJoin | src/component/analytic.tsx:280 | the last five fields join to `60,50,10,"83%","17%"` |
| ReportExport.SalesPercentsJoin | src/component/analytic.tsx:280 | the last three fields join to `10,"83%","17%"` |
| ReportExport.SummaryRatesExample | src/component/analytic.tsx:251-252 | with 100 feedbacks, 80 positive and 20 negative, the summary shows "80%" and "20%" |
| ReportExport.SectorLinesExample | src/component/analytic.tsx:246-282 | with sectors Sales and Support the table has 11 rows and row 10 is the Sales line |
| ReportExport.BuildSectorData | src/component/analytic.tsx:320-334 | the spreadsheet's sector table is the header followed by one row pushed per entry in entry order |
| ReportExport.ExcelSectorRow | src/component/analytic.tsx:326-333 | a spreadsheet sector row with the counts as strings; ExcelRowMatchesCsvRow relates it to the CSV row |
| ReportExport.ExportToExcel | src/component/analytic.tsx:298-343 | nothing without statistics; otherwise a "Summary" sheet with the summary rows and a "Sector Breakdown" sheet with the header and one row per sector |
| ReportExport.ExcelRowMatchesCsvRow | src/component/analytic.tsx:323-334 | a spreadsheet sector row shows the same six texts as the CSV's, with the counts as strings (`String(...)`) instead of numbers |
| ReportExport.ExportToPdf | src/component/analytic.tsx:345-396 | a report exactly when statistics are loaded |
| ReportExport.PdfSummaryBody | src/component/analytic.tsx:368-374 | the PDF summary body; PdfMatchesCsv proves it is the CSV's rows 2 to 6 |
| ReportExport.PdfSubtitle | src/component/analytic.tsx:356-359 | the PDF subtitle; PdfSubtitleRange gives it for each range value |
| ReportExport.PdfMatchesCsv | src/component/analytic.tsx:365-396 | the PDF's summary head and body are the CSV's first six rows; its sector head and body are the CSV's sector header and rows |
| ReportExport.PdfSubtitleRange | src/component/analytic.tsx:356-359 | the subtitle names the selected range ("Last 7 days", "Last 30 days", "Last 90 days", "All time"), or "undefined" for a value outside the four |
| FeedbackList.FilterFeedbacks | src/component/feedback.tsx:67-70 | the filtered list is no longer than the input and holds exactly the input records that pass the filter |
| FeedbackList.Matches | src/component/feedback.tsx:67-70 | the filter callback; FilterAll, FilterCounts and UpperCaseMatchesNeither state what it lets through |
| FeedbackList.FilterAll | src/component/feedback.tsx:67-68 | "ALL" returns the input unchanged |
| FeedbackList.FilterIsSubsequence | src/component/feedback.tsx:67-70 | the filtered list keeps the input's relative order: it is a subsequence |
| FeedbackList.FilterCounts | src/component/feedback.tsx:69 | a matching record occurs as often as in the input; a non-matching one does not occur |
| FeedbackList.FilterIdempotent | src/component/feedback.tsx:67-70 | filtering the filtered list again with the same value changes nothing |
| FeedbackList.PolaritiesDisjoint | src/component/feedback.tsx:69 | no record is in both the "positive" and the "negative" list |
| FeedbackList.PartitionByPolarity | src/component/feedback.tsx:34 | for records typed "positive" or "negative", the two lists together hold every record as often as the input |
| FeedbackList.PartitionLengths | src/component/feedback.tsx:34 | so their lengths add up to the input's length |
| FeedbackList.UpperCaseMatchesNeither | src/component/feedback.tsx:43 | matching is exact: a "POSITIVE" record is in neither polarity's list, only in "ALL" |
| FeedbackList.CountLabel | src/component/feedback.tsx:117 | "Item" exactly for one record and "Items" otherwise, 0 included |
| FeedbackList.BadgeText | src/component/feedback.tsx:116-117 | the badge text; BadgeCount proves its count and its singular form |
| FeedbackList.BadgeCount | src/component/feedback.tsx:116-117 | the badge begins with the shown count, which `parseInt` reads back, and ends in "Item" exactly when one record is shown |
| FeedbackList.ShowsEmptyState | src/component/feedback.tsx:137 | the empty-state condition; EmptyStateExactlyWhenNoMatch characterises it |
| FeedbackList.EmptyStateExactlyWhenNoMatch | src/component/feedback.tsx:137 | "No feedback found" shows exactly when no record matches; under "ALL" exactly when there are no records |

## Left out

- Network I/O is not modelled: `fetch`, its response and the loading, error and refresh state (`fetchStats`, the `useEffect` hooks). The statistics record and the feedback records are parameters.
- Rendering is not modelled: the Chakra markup, the chart.js datasets and options, and the tooltip callbacks. Their inputs `sectors` and the three columns are modelled.
- File writing is not modelled: the Blob/URL/anchor download, `xlsx` `aoa_to_sheet`/`writeFile`, and the `jsPDF`/`autoTable` calls with their fonts, colours and positions. Only the content handed to them is modelled.
- Dates are not modelled. The date-stamped filenames and `toLocaleDateString` depend on the clock and locale, so the PDF date is a parameter.
- The random trend values (`Math.random`) are not modelled. Only the trend's length and labels are.
- Analytics.RoundDivBounds: exact round-half-up. Floating-point `Math.round((part / total) * 100)` can round differently when the exact value is a half that the float product misses.
- Strings.NatToString: counts are unbounded naturals. In the source they are JavaScript numbers (doubles), so integers above 2^53 are not exact and `String` writes 1e21 and above in exponent form ("1e+21"). The digit-run contract holds only below 1e21; counts of feedback records never come near either bound.
- Strings.ParseInt: only a leading run of decimal digits. Leading whitespace, a sign, a `0x` prefix and fractional parts are not modelled; the selectable values are "7", "30", "90" and "all".
- Analytics.Names: entry order is taken as the object's key order. JavaScript lists integer-like keys first in numeric order, which is not modelled.
- ReportExport.CellTextShape: the CSV does not escape quotes, commas or newlines in a sector name; an embedded quote is copied as is. `RowFields` and `SectorLineFields` therefore require names without a comma, and `CsvTextLines` and `CsvReportLines` names without a newline; none of them needs to exclude quotes, since splitting ignores them. This is the serialiser's behaviour, not a gap in the model.
- Analytics.TotalOf, PositiveOf, NegativeOf: the optional chaining guards only `stats`, so `sector_breakdown[name]` with a name that is not a key throws a `TypeError`. The `None => 0` branch stands for that throw and is never taken, because every label is a key (`FindUnique`). The `|| 0` after a present count gives back the count itself, 0 included, so it needs no separate model. The top-sector comparison has no `|| 0` at all; `ReduceTop` reuses `TotalOf` only for keys, where the two agree.
- ReportExport.ExportToExcel: the summary sheet uses `SummaryRows`, because the spreadsheet's literal (lines 304-315) is the CSV's summary literal (lines 246-256) cell for cell.
- Percentages with a zero total are modelled as JavaScript evaluates them ("NaN%" when the count is 0 too, "Infinity%" otherwise), not as a precondition: the code divides without a guard. Facts about their value (`PercentageBounds` and the lemmas after it) assume a positive total.
- The "Top Sector" reduce on an empty sector list throws a `TypeError`. The model returns `None` there and does not model the exception.
- The sentiment doughnut data (`stats?.total_positive || 0`) is not modelled; it only relabels two counts.
- Login, the FAQ form, the dashboard screen, the navigation bar, the layout, the router and the authentication hook are not part of this model.
