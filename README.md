# Portfolio site: keyword index, notes, daily reports and the daily exporter

A Dafny model of the logic behind a personal research site. The site is a
Next.js app with a Python exporter. The model covers:

- **Keyword hit index** (`lib/keywords/hits.ts`). For every catalog keyword, it
  counts the daily reports whose text contains the keyword, ignoring case. It
  also keeps the first and last report dates and the slug of the last report.
  - The slug is the file name without one `.md`/`.mdx` suffix, matched in any case.
  - A report counts only if its slug has the `dddd-dd-dd` date shape.
  - The accumulation loop is a method that updates a map of records. It is
    proved equal to a fold over the files, and the fold is proved to
    summarise each keyword's hit dates.
- **Keyword view** (`app/methodology/keywords/KeywordsClient.tsx`). It covers
  the normalised query and the category filter (whole category on a title or
  key hit, otherwise only the matching items). It also covers the statistics,
  the plain-text export of all categories and of one category, the open/closed
  rule of a category, and the per-keyword display defaults.
- **Notes** (`lib/notes.ts`, `app/page.tsx`). The shipped notes are listed
  newest first and looked up by slug. The research view sorts them by weight
  (a missing weight comes last) and then by date. The notes with weight
  0.8 or more form the high-weight view, and the same threshold makes a
  weight badge red.
- **Daily reports** (`lib/daily.ts`). Slugs come from the `.md` file names
  (case-sensitive, no `.mdx`). Titles and dates fall back to a default when
  the front matter lacks them. The list is sorted newest first in an array,
  the latest report is the first of the list or none, and the metadata of one
  report is read by slug.
- **Daily markdown exporter** (`scripts/export_daily_md.py`).
  - `_safe` is modelled.
  - The representative-news selection: exact comma-list membership, confidence
    rank, a four-key descending sort, dedupe by link keeping the first, then
    the first `topn` rows.
  - `export_daily_markdown`: the missing-file and missing-sheet errors, the
    summary counts, and every line of the report.
  - The report loop appends the lines step by step. It is proved equal to a
    function that gives the whole report.

Conventions:

- JavaScript and Python compare strings with `<`. This is modelled by code
  point as `TextOps.LexLess`, because Dafny's own `<` on sequences is the proper-prefix
  order.
- Every library sort is modelled as one stable insertion sort (`Sorting`). The
  comparators are shown to be total preorders. Only "same elements" and
  "ordered" are claimed, never the order of ties.
- Spreadsheet rows are maps from column name to cell. A cell is `Blank` (an
  empty cell read as NaN) or holds the text `str()` gives of its value; an
  empty cell of a date column is NaT, given as `Text("NaT")`. pandas' number and date
  parsing are parameters (`NewsPick.Parsers`).
- The directory listings, file texts, front matter, the workbook and today's
  date are inputs.

## Model

| member | source | states |
|---|---|---|
| KeywordHits.SlugStripsOneSuffix | lib/keywords/hits.ts:20-22 | The slug is a prefix of the name. It equals the name exactly when the name has no `.md`/`.mdx` suffix in any case; otherwise what was removed is one such suffix. |
| KeywordHits.SlugOfSuffixedName | lib/keywords/hits.ts:20-22 | A name plus `.md`/`.mdx` in any case gives the name back. Only one suffix is removed, so `a.md.md` keeps `a.md`. |
| KeywordHits.DateFromSlug | lib/keywords/hits.ts:24-27 | There is a date exactly when the whole slug has the `dddd-dd-dd` shape, with month and day unchecked. The date is then the slug itself. |
| KeywordHits.InitialIndex | lib/keywords/hits.ts:33-37 | The keys are exactly the catalog keywords. Each record has zero hit days and no dates. |
| KeywordHits.ApplyFile | lib/keywords/hits.ts:50-61 | Processing one report never adds or removes a key. |
| KeywordHits.BuildIndex | lib/keywords/hits.ts:29-65 | After any sequence of files, the keys are exactly the catalog keywords. |
| KeywordHits.BuildKeywordHits | lib/keywords/hits.ts:29-65 | The nested loops over files and keywords produce the fold `BuildIndex` over the files. Its keys are exactly the keywords of the catalog. |
| KeywordHits.ApplyKeywords | lib/keywords/hits.ts:50-61 | The inner loop over the keywords for one report equals `ApplyFile`. |
| KeywordHits.TouchNewDate | lib/keywords/hits.ts:53-60 | A hit on a new date adds one hit day. The date extends the summarised dates, which stay the least and the greatest. |
| KeywordHits.TouchKnownDate | lib/keywords/hits.ts:53-60 | A hit on a date already seen adds one hit day. The record still summarises the same dates, so the least and greatest stay as they were. |
| KeywordHits.TouchTimesSummarizes | lib/keywords/hits.ts:50-60 | A keyword listed n times in the catalog is touched n times per report: n more hit days, with one date added. |
| KeywordHits.ApplyFileRecord | lib/keywords/hits.ts:50-61 | After one report, a keyword's record has been touched as often as the keyword is listed when the text contains it. Otherwise it is unchanged. |
| KeywordHits.IndexRecord | lib/keywords/hits.ts:39-62 | For every keyword: hit days = (times listed) × (number of hit reports). First and last dates are present exactly when a report hit. They are then the least and greatest hit dates, and the slug equals the last date. |
| KeywordHits.HitDaysCountsReports | lib/keywords/hits.ts:50-60 | For a keyword listed once, hit days is the number of qualifying reports containing it. First/last dates exist exactly when hit days > 0, first ≤ last, and `lastSeenSlug == lastSeen`. |
| KeywordHits.SkippedFileChangesNothing | lib/keywords/hits.ts:40-44 | A file without a `.md`/`.mdx` name or without a date slug leaves every record unchanged. |
| Catalog.AllKeywords | lib/keywords/hits.ts:33 | Every item of every category is in the flattened list, and nothing else. |
| Catalog.AllKeywordsLength | app/methodology/keywords/KeywordsClient.tsx:37 | The flattened list has as many keywords as the summed item counts. |
| KeywordsView.NormalizeIdempotent | app/methodology/keywords/KeywordsClient.tsx:9-11 | Lower-casing and trimming twice is the same as once. |
| KeywordsView.FilterCat | app/methodology/keywords/KeywordsClient.tsx:47-53 | On a title or key hit the category is kept whole. Otherwise it is kept exactly when some item matches, with exactly the matching items: the same category with its items narrowed to the keyword matches, in order. Either way the result is the same category with a subsequence of its items. |
| KeywordsView.Filtered | app/methodology/keywords/KeywordsClient.tsx:42-55 | An empty normalised query returns the categories unchanged. Any query returns a subsequence of the categories, each narrowed to a subsequence of its items. |
| KeywordsView.FilterCatsSound | app/methodology/keywords/KeywordsClient.tsx:46-54 | Every kept category hits on title or key, or is non-empty with only matching items. |
| KeywordsView.FilterCatsComplete | app/methodology/keywords/KeywordsClient.tsx:46-54 | Every category that `FilterCat` keeps appears in the filtered list. |
| KeywordsView.MatchingKeywordListed | app/methodology/keywords/KeywordsClient.tsx:42-55 | A keyword that matches the query is shown in its category. |
| KeywordsView.HitWordsAtMostTotal | app/methodology/keywords/KeywordsClient.tsx:57 | The filtered lists have no more categories and no more keywords than the catalog. |
| KeywordsView.ComputeStats | app/methodology/keywords/KeywordsClient.tsx:35-40 | `totalCats` is the category count and `totalWords` the number of catalog keywords. |
| KeywordsView.TotalHitDaysCountsReports | app/methodology/keywords/KeywordsClient.tsx:38 | Over the index built from distinct keywords, `totalHitDays` is the total, over keywords, of the reports that contain them. |
| KeywordsView.Bullets | app/methodology/keywords/KeywordsClient.tsx:62 | One `- item` line per item, in order. |
| KeywordsView.CatTexts | app/methodology/keywords/KeywordsClient.tsx:60-64 | One block of text per category, in order. |
| KeywordsView.CatTextLines | app/methodology/keywords/KeywordsClient.tsx:180-183 | A category's text splits into the line `## title (n)` followed by its `- item` lines. |
| KeywordsView.AllTextLines | app/methodology/keywords/KeywordsClient.tsx:59-66 | The whole export splits into the categories' lines with one blank line between categories. |
| KeywordsView.AllTextOfOne | app/methodology/keywords/KeywordsClient.tsx:59-66 | The export of one category is that category's own text, the same format as `textForCat`. |
| KeywordsView.AllTextSnoc | app/methodology/keywords/KeywordsClient.tsx:59-66 | Adding a category appends a blank line and its text. |
| KeywordsView.ClickFlipsUnlessForced | app/methodology/keywords/KeywordsClient.tsx:177-193 | Flipping the local toggle changes what is shown exactly when `openAll` is null. |
| KeywordsView.DisplayRow | app/methodology/keywords/KeywordsClient.tsx:225-254 | A keyword without a record shows 0 hit days and `—` dates. A recorded keyword shows its hit days, and its first and last dates or `—` where a date is missing. A link is produced exactly when a non-empty `lastSeenSlug` is present, and it is `/daily/` + that slug. |
| KeywordsView.MdxReportLinksToMissingPage | lib/keywords/hits.ts:39-44 | A report named `<date>.mdx` qualifies, and a keyword it mentions links to `/daily/<date>`. The page reader looks only for `<date>.md`, so with that file alone the linked page has no report. |
| KeywordsView.RowLinksToLastReport | app/methodology/keywords/KeywordsClient.tsx:226-249 | Over the built index, a keyword links exactly when some report hit it, and the link is `/daily/` + the last date shown. The first and last dates shown are the least and the greatest of the dates of the reports that hit it. A keyword never hit shows 0 and `—`. |
| Notes.FindBySlug | lib/notes.ts:53-55 | Finds the first note with the slug, or none exactly when no note has it. |
| Notes.ByDateIsNewestFirst | lib/notes.ts:48-51 | The sorted copy holds the same notes, is as long, and its dates never increase. |
| Notes.NewerFirstIsTotalPreorder | lib/notes.ts:50 | The date comparator is total and transitive. |
| Notes.ShippedSlugsDistinct | lib/notes.ts:15-55 | The shipped slugs are distinct. Each is found as its own note, and an unknown slug finds none. |
| Notes.ShippedNotesNewestFirst | lib/notes.ts:15-51 | `getAllNotes()` lists `event-continuity` (2026-02-04) before `bbu-hvdc` (2026-02-01). |
| NotesPage.ResearchBeforeIsTotalPreorder | app/page.tsx:34-39 | The weight-then-date comparator, with a missing weight as −Infinity, is total and transitive. |
| NotesPage.SortedByWeightThenDate | app/page.tsx:34-39 | The sorted copy holds the same notes. Weights never increase, an unweighted note comes after every weighted one, and among equal weights dates never increase. |
| NotesPage.HighPriorityIsFrontOfSorted | app/page.tsx:42 | The high-weight view holds exactly the sorted notes with weight (missing as 0) ≥ 0.8, and it is a prefix of the sorted list. |
| NotesPage.WeightBadge | app/page.tsx:15-27 | No badge without a weight. Otherwise the badge shows the weight and is red exactly when the weight is ≥ 0.8. |
| NotesPage.HighPriorityIffRedBadge | app/page.tsx:15-42 | A listed note is in the high-weight view exactly when its badge is red. |
| NotesPage.ShippedResearchOrder | app/page.tsx:31-42 | On the shipped notes the 0.8 note comes first and is the only high-weight one. |
| Daily.SlugsOf | lib/daily.ts:13-14 | A slug is listed exactly when slug + `.md` is a name in the listing. There are never more slugs than names. |
| Daily.DailySlugs | lib/daily.ts:9-15 | No directory gives no slugs. |
| Daily.OnlyLowerMdListed | lib/daily.ts:13-14 | Of `x.mdx`, `y.MD` and `z.md` only `z` is listed. |
| Daily.Entry | lib/daily.ts:19-28 | The title is the front-matter title or `台股事件雷達｜` + slug. The date is the front-matter date or the slug. |
| Daily.OneEntryPerSlug | lib/daily.ts:17-28 | The entries' slugs are the daily slugs, one entry per slug and in order. |
| Daily.NewerFirstIsTotalPreorder | lib/daily.ts:30 | The date comparator is total and transitive. |
| Daily.GetDailyList | lib/daily.ts:17-32 | Building the entries and sorting them in an array gives `DailyList`. |
| Daily.DailyListNewestFirst | lib/daily.ts:17-32 | The list holds the same entries as the listing, one per slug, and its dates never increase. |
| Daily.LatestDaily | lib/daily.ts:50-54 | None exactly when the list is empty, else its first entry. |
| Daily.LatestIsNewest | lib/daily.ts:50-54 | None exactly when there is no slug. Otherwise the result is an entry and no entry has a later date. |
| Daily.DailyMeta | lib/daily.ts:34-49 | The metadata exists exactly when `slug.md` is in the listing. |
| Daily.MetaIn | lib/daily.ts:34-49 | The metadata is built by the same `Entry` defaults from that file's front matter. |
| Daily.MetaMatchesList | lib/daily.ts:41-46 | With distinct file names, the metadata read by slug is the list's entry for that slug. |
| Sorting.SortInPlace | lib/daily.ts:30 | The in-place array sort leaves the array equal to the stable insertion sort of its old contents. |
| Sorting.SortedCopy | lib/daily.ts:30 | Copying into an array and sorting it gives the insertion sort. |
| Sorting.SortIsPermutation | lib/daily.ts:30 | The sort keeps the same elements, as a multiset. |
| Sorting.SortIsSorted | lib/daily.ts:30 | Under a total preorder, every earlier element may precede every later one. |
| TextOps.ToLowerIdempotent | lib/keywords/hits.ts:16-18 | Lower-casing twice is the same as once. |
| TextOps.TrimIdempotent | scripts/export_daily_md.py:14-17 | Stripping twice is the same as once. |
| TextOps.SplitJoin | app/methodology/keywords/KeywordsClient.tsx:62-65 | Joining lines free of the separator and splitting gives them back. |
| TextOps.JoinSplit | app/methodology/keywords/KeywordsClient.tsx:62-65 | Splitting any text and joining gives it back. |
| TextOps.LexLeTotalOrder | lib/keywords/hits.ts:56-57 | String `<=` by code point is a total order. |
| TextOps.NatToStringRoundTrip | scripts/export_daily_md.py:104-106 | The decimal rendering of a count reads back as the count. |
| NewsPick.Safe | scripts/export_daily_md.py:14-17 | `None` gives "", a NaN cell gives "nan", and text gives its stripped form. |
| NewsPick.SafeIdempotent | scripts/export_daily_md.py:14-17 | `_safe` of its own result gives the result back. |
| NewsPick.Matching | scripts/export_daily_md.py:30-37 | The kept rows are a subsequence of the sheet. They are exactly the rows whose company list and event-type list contain the company and the event: every kept row matches, and every matching row is kept. |
| NewsPick.ConfRank | scripts/export_daily_md.py:41 | 高 is 3, 中 is 2, 低 is 1, and anything else is 0. |
| NewsPick.RankAll | scripts/export_daily_md.py:41-48 | One ranked row per row, in order. |
| NewsPick.NewsBeforeIsTotalPreorder | scripts/export_daily_md.py:50 | The descending order on confidence, monitor score, theme score, then time (unparsed last) is total and transitive. |
| NewsPick.DedupeFrom | scripts/export_daily_md.py:51 | Keeps a subsequence with distinct links, none of them already seen. Every unseen link of the input survives. |
| NewsPick.DedupeKeepsFirst | scripts/export_daily_md.py:51 | `keep="first"`: a kept row is the first row of the input with its link. No earlier row carries the same link. |
| NewsPick.Head | scripts/export_daily_md.py:52 | The result is a prefix. For n ≥ 0 its length is min(n, length). |
| NewsPick.PickRepresentativeNews | scripts/export_daily_md.py:20-52 | Matching, ranking, sorting in an array, dedupe and head give `PickSpec`. |
| NewsPick.NothingToPick | scripts/export_daily_md.py:21-39 | No news, or no matching news, gives no rows. |
| NewsPick.PickedRowsMatch | scripts/export_daily_md.py:30-37 | Every picked row comes from the news sheet, matches company and event, and has non-empty company and event-type fields. |
| NewsPick.PickedRowsDistinctAndSorted | scripts/export_daily_md.py:50-52 | Picked links are distinct, there are at most `topn` rows, and they are in the descending four-key order. |
| NewsPick.PickedRowsAreBestPerLink | scripts/export_daily_md.py:50-52 | Each picked row ranks at least as high as every matching row with its link. When fewer than `topn` were picked, every matching link is among them. |
| NewsPick.PickedRowsOutrankUnpicked | scripts/export_daily_md.py:50-52 | Every picked row ranks at least as high as every matching row whose link was not picked. |
| ExportDaily.FirstMissing | scripts/export_daily_md.py:60-63 | None exactly when every needed sheet exists. Otherwise it is the first missing one in the order News, EventRadarPlus, CompanyHeat, RunLog. |
| ExportDaily.ExportSpec | scripts/export_daily_md.py:55-174 | The report as corrected at line 77 (see Findings). A missing file fails with FileNotFound. A report is written exactly when the file exists and has all four sheets. A missing-sheet failure names the first sheet of `need_sheets` that the workbook lacks. |
| ExportDaily.ExportDailyMarkdown | scripts/export_daily_md.py:55-174 | The sheet checks and the step-by-step appending of lines give `ExportSpec`. |
| ExportDaily.AppendEvents | scripts/export_daily_md.py:111-146 | The loop over the shown events appends exactly the event section. |
| ExportDaily.AppendSources | scripts/export_daily_md.py:136-146 | The loop over the picked articles appends exactly the source block. |
| ExportDaily.AppendHeat | scripts/export_daily_md.py:148-158 | The loop over the heat rows appends exactly the heat section. |
| ExportDaily.NewCount | scripts/export_daily_md.py:77 | The corrected NEW count is at most the number of event rows. |
| ExportDaily.NewCountAsWrittenFails | scripts/export_daily_md.py:77 | As written, the count fails exactly on a non-empty event sheet without a `NEW` column. Everywhere else it equals the corrected count. |
| ExportDaily.NewCountCounterexample | scripts/export_daily_md.py:77 | One event row and no `NEW` column: as written it raises; the corrected count is 0. |
| ExportDaily.TrendingCount | scripts/export_daily_md.py:78-80 | At most the number of rows, and 0 without a `熱度變化` column. |
| ExportDaily.TopLineOnlyWithEvents | scripts/export_daily_md.py:82-108 | The top line is non-empty exactly when there are events. It splits at `｜` into event, theme and company first. |
| ExportDaily.RunInfo | scripts/export_daily_md.py:87-89 | The run info is the last run-log row, present exactly when the sheet has a non-empty last row. |
| ExportDaily.ExcludeCompaniesText | scripts/export_daily_md.py:100 | The front matter renders the excluded companies as Python's list text `['時報', '三星', '中華', '力士', '全國']`. |
| ExportDaily.EventHeadingsNumbered | scripts/export_daily_md.py:111-127 | The only `### ` lines of the event section are the headings `### i) name`, numbered 1..min(top_events, rows) in sheet order. |
| ExportDaily.NewMarkOnHeading | scripts/export_daily_md.py:125-127 | A row whose stripped NEW cell is `NEW` gets a heading ending in ` **NEW**`. Any other row gets just `### i) ` and the event name. |
| ExportDaily.NewMarkCoversCount | scripts/export_daily_md.py:125 | A row the NEW count counts (cell exactly `NEW`) is marked on its heading. A row whose cell is ` NEW` counts 0 but is marked all the same. |
| ExportDaily.SourcesNumbered | scripts/export_daily_md.py:135-146 | At most 6 articles with distinct links. With none, the block is the single "無" line. Otherwise the block is the title line, the articles numbered 1..n, and a final blank line. |
| ExportDaily.HeatTableAtMost20 | scripts/export_daily_md.py:148-158 | Without heat rows the section is the title and the "empty" line. Otherwise it is the title, the header and the rule line, then one line for each of the first min(20, rows) rows in order, then a blank line. |

## Left out

- File system, Excel and clock: `readdir`, `readFile`, `existsSync`, `pd.ExcelFile` and `read_excel` are not modelled; their results are inputs. `datetime.now` is not modelled either: today's date is a parameter.
- Output: the `makedirs` call, the default output path, the file write and the final `print` of the exporter (scripts/export_daily_md.py:71-74, 173-176) are left out. The report is modelled as its list of lines.
- gray-matter and remark: front matter is given as an optional title and date. The HTML body of `getDailyHtml` (lib/daily.ts:39-48) is not modelled, only its metadata.
- React: hooks, JSX, the clipboard and `prompt` fallback of `copyText`, the JSON export `allJson` (KeywordsClient.tsx:68), the changelog panel and history navigation are presentation. The UI state is modelled only through `IsOpen`.
- TextOps.ToLower: lower-cases ASCII letters only. Full Unicode case mapping is left out; the catalog's CJK keywords have no case.
- Weights and scores: JavaScript numbers and pandas floats are modelled as reals, without NaN or infinities. `wb - wa` is read only by its sign.
- Sorting: every library sort (`Array.prototype.sort`, `sort_values`) is the same stable insertion sort. Tie order is not claimed, since the JavaScript comparators never return 0.
- pandas parsing: `to_numeric` and `to_datetime` with `errors="coerce"` are parameters (`NewsPick.Parsers`). Cells are the text `str()` gives of their values, and an empty cell is NaN (`Blank`, rendered "nan"); in a date column it is NaT, given as `Text("NaT")`.
- TextOps.LexLess: strings are compared by code point. JavaScript compares UTF-16 code units, and the two orders differ between characters above U+FFFF and those in U+E000–U+FFFF. The dates compared here are ASCII.
- ExportDaily.ExportSpec: states the report as corrected at scripts/export_daily_md.py:77. Without a `NEW` column it writes a report with 0 new events, where the script fails (see Findings).
- KeywordsView.ComputeStats: `Object.values(hits)` is given as an explicit sequence of its keys, because key order is a JavaScript runtime property. Keys inherited through the prototype are not modelled.
- KeywordsView.TotalHitDaysCountsReports: stated for catalogs whose keywords are distinct. The shipped catalog's are; `KeywordHits.IndexRecord` covers repeated keywords.
- KeywordHits.HitDaysCountsReports: stated for a keyword listed once. `KeywordHits.IndexRecord` states the general count, (times listed) × (reports).
- Exporter loop: each event's picked articles are computed before its lines are appended. The script interleaves both steps, but the lines come out the same.
- Static data: both `changelog.ts` files and the pages that only display data (app/notes, app/daily, app/about, app/layout.tsx) are not modelled.

## Findings

| source | as written | input that shows it | evidently intended | confidence | as-written member | corrected member |
|---|---|---|---|---|---|---|
| scripts/export_daily_md.py:77 | `df_evt.get("NEW", "") == "NEW"` is compared and then `.sum()` is called on the result. Without a `NEW` column, `get` returns `""` and the comparison is the plain `False`, which has no `.sum()`: AttributeError. | An EventRadarPlus sheet with one row and no `NEW` column | No `NEW` column means 0 new events, and the report is still written | not executed | ExportDaily.NewCountCounterexample, ExportDaily.NewCountAsWrittenFails (over `ExportDaily.NewCountAsWritten`) | ExportDaily.NewCount, used by `ExportDaily.ReportLines` |
