/** `export_daily_markdown` of scripts/export_daily_md.py: the checks on the
    workbook, the summary counts, and the markdown lines of the daily report.
    The workbook's four sheets are given as rows; the date of today is a
    parameter; the lines are what the script joins with "\n" and writes.
    An f-string is the join of its pieces with "". */
module ExportDaily {
  import opened TextOps
  import opened Sorting
  import opened NewsPick

  datatype Sheet = Sheet(columns: set<string>, rows: seq<Row>)

  datatype Workbook = Workbook(
    fileExists: bool,
    sheetNames: seq<string>,
    news: Sheet,
    events: Sheet,
    heat: Sheet,
    runLog: Sheet)

  /** `FileNotFoundError`, the `ValueError` of a missing sheet, and the
      `AttributeError` of summing a plain boolean. */
  datatype ExportError = FileNotFound | MissingSheet(name: string) | SumOfBool

  datatype Outcome = Failed(error: ExportError) | Written(lines: seq<string>)

  datatype Result<T> = Ok(value: T) | Err(error: ExportError)

  const NeededSheets: seq<string> := ["News", "EventRadarPlus", "CompanyHeat", "RunLog"]

  /** `EXCLUDE_COMPANY_FOR_RANK`. */
  const ExcludeCompanies: seq<string> := ["時報", "三星", "中華", "力士", "全國"]

  /** The first needed sheet the workbook lacks. */
  function FirstMissing(needed: seq<string>, names: seq<string>): (r: Option<string>)
    ensures r.None? <==> forall i :: 0 <= i < |needed| ==> needed[i] in names
    ensures r.Some? ==>
      exists i :: 0 <= i < |needed| && needed[i] == r.value && r.value !in names &&
        forall k :: 0 <= k < i ==> needed[k] in names
  {
    if needed == [] then None
    else if needed[0] !in names then Some(needed[0])
    else
      var r := FirstMissing(needed[1..], names);
      assert forall i :: 1 <= i < |needed| ==> needed[i] == needed[1..][i - 1];
      r
  }

  // ---------------------------------------------------------------------
  // The summary

  /** The rows whose raw `NEW` cell is the text "NEW". */
  function CountNew(rows: seq<Row>): (r: nat)
    ensures r <= |rows|
  {
    if rows == [] then 0
    else
      var last := if Get(rows[|rows| - 1], "NEW") == Some(Text("NEW")) then 1 else 0;
      CountNew(rows[..|rows| - 1]) + last
  }

  /** `new_events` as written: without a `NEW` column,
      `df_evt.get("NEW", "") == "NEW"` is the plain `False`, which has no
      `.sum()`. */
  function NewCountAsWritten(events: Sheet): Result<nat>
  {
    if events.rows == [] then Ok(0)
    else if "NEW" in events.columns then Ok(CountNew(events.rows))
    else Err(SumOfBool)
  }

  /** `new_events` as intended: no `NEW` column means no new event. */
  function NewCount(events: Sheet): (r: nat)
    ensures r <= |events.rows|
  {
    if events.rows != [] && "NEW" in events.columns then CountNew(events.rows) else 0
  }

  /** The script stops on a non-empty event sheet without a `NEW` column;
      everywhere else the corrected count is the one it computes. */
  lemma NewCountAsWrittenFails(events: Sheet)
    ensures NewCountAsWritten(events).Err? <==> events.rows != [] && "NEW" !in events.columns
    ensures NewCountAsWritten(events).Ok? ==> NewCountAsWritten(events).value == NewCount(events)
  {
  }

  /** One event and no `NEW` column: the script raises instead of writing a
      report that counts no new event. */
  lemma NewCountCounterexample()
    ensures var events := Sheet({"事件"}, [map["事件" := Text("CoWoS 擴產")]]);
      NewCountAsWritten(events) == Err(SumOfBool) && NewCount(events) == 0
  {
  }

  /** The rows whose `熱度變化` reads as a number above 0 (unreadable counts
      as 0). */
  function CountRising(rows: seq<Row>, p: Parsers): (r: nat)
    ensures r <= |rows|
  {
    if rows == [] then 0
    else
      var last := if NumberOrZero(Field(rows[|rows| - 1], "熱度變化"), p) > 0.0 then 1 else 0;
      CountRising(rows[..|rows| - 1], p) + last
  }

  /** `trending_events`. */
  function TrendingCount(events: Sheet, p: Parsers): (r: nat)
    ensures r <= |events.rows|
    ensures "熱度變化" !in events.columns ==> r == 0
  {
    if events.rows != [] && "熱度變化" in events.columns then CountRising(events.rows, p) else 0
  }

  /** `top_line`: event, theme and company of the first event row, then its
      heat and change, separated by `｜`. */
  function TopLine(rows: seq<Row>): string
  {
    if rows == [] then ""
    else
      var r0 := rows[0];
      var heat := Join(["熱度 ", Safe(Get(r0, "今日熱度")), "（Δ", Safe(Get(r0, "熱度變化")), "）"], "");
      Join([Safe(Get(r0, "事件")), Safe(Get(r0, "主題")), Safe(Get(r0, "公司")), heat], "｜")
  }

  /** There is a top line exactly when there are events, and it splits at
      `｜` into the event, the theme and the company first. */
  lemma TopLineOnlyWithEvents(rows: seq<Row>)
    ensures TopLine(rows) != "" <==> rows != []
    ensures rows != [] ==>
      var r0 := rows[0];
      var e, t, c := Safe(Get(r0, "事件")), Safe(Get(r0, "主題")), Safe(Get(r0, "公司"));
      '｜' !in e && '｜' !in t && '｜' !in c ==>
        |Split(TopLine(rows), '｜')| >= 3 && Split(TopLine(rows), '｜')[..3] == [e, t, c]
  {
    if rows != [] {
      var r0 := rows[0];
      var e, t, c := Safe(Get(r0, "事件")), Safe(Get(r0, "主題")), Safe(Get(r0, "公司"));
      var heat := Join(["熱度 ", Safe(Get(r0, "今日熱度")), "（Δ", Safe(Get(r0, "熱度變化")), "）"], "");
      assert [e, t, c, heat] == [e, t, c] + [heat];
      JoinSnoc([e, t, c], heat, "｜");
      var front := Join([e, t, c], "｜");
      assert TopLine(rows) == front + ['｜'] + heat;
      if '｜' !in e && '｜' !in t && '｜' !in c {
        SplitConcat(front, heat, '｜');
        SplitJoin([e, t, c], '｜');
      }
    }
  }

  // ---------------------------------------------------------------------
  // The lines

  /** One line per element: `[line(x) for x in xs]`. */
  function Lines<T>(xs: seq<T>, line: T -> string): (r: seq<string>)
    ensures |r| == |xs|
    ensures forall i :: 0 <= i < |xs| ==> r[i] == line(xs[i])
  {
    if xs == [] then []
    else
      var r := Lines(xs[..|xs| - 1], line) + [line(xs[|xs| - 1])];
      assert forall i :: 0 <= i < |xs| - 1 ==> xs[..|xs| - 1][i] == xs[i];
      r
  }

  /** One line per element, numbered from 1:
      `[line(i, x) for i, x in enumerate(xs, start=1)]`. */
  function Numbered<T>(xs: seq<T>, line: (nat, T) -> string): (r: seq<string>)
    ensures |r| == |xs|
    ensures forall i :: 0 <= i < |xs| ==> r[i] == line(i + 1, xs[i])
  {
    if xs == [] then []
    else
      var r := Numbered(xs[..|xs| - 1], line) + [line(|xs|, xs[|xs| - 1])];
      assert forall i :: 0 <= i < |xs| - 1 ==> xs[..|xs| - 1][i] == xs[i];
      r
  }

  lemma LinesSnoc<T>(xs: seq<T>, line: T -> string, i: nat)
    requires i < |xs|
    ensures Lines(xs[..i + 1], line) == Lines(xs[..i], line) + [line(xs[i])]
  {
    assert xs[..i + 1][..i] == xs[..i];
  }

  lemma NumberedSnoc<T>(xs: seq<T>, line: (nat, T) -> string, i: nat)
    requires i < |xs|
    ensures Numbered(xs[..i + 1], line) == Numbered(xs[..i], line) + [line(i + 1, xs[i])]
  {
    assert xs[..i + 1][..i] == xs[..i];
  }

  /** Python's `str` of a list of plain strings: `['a', 'b']`. */
  function PyListText(xs: seq<string>): string
  {
    "[" + Join(Quoted(xs), ", ") + "]"
  }

  function Quoted(xs: seq<string>): (r: seq<string>)
    ensures |r| == |xs|
    ensures forall i :: 0 <= i < |xs| ==> r[i] == "'" + xs[i] + "'"
  {
    if xs == [] then []
    else
      var r := ["'" + xs[0] + "'"] + Quoted(xs[1..]);
      assert forall i :: 1 <= i < |xs| ==> xs[i] == xs[1..][i - 1];
      r
  }

  lemma ExcludeCompaniesText()
    ensures PyListText(ExcludeCompanies)
         == "[" + "'時報', " + "'三星', " + "'中華', " + "'力士', " + "'全國'" + "]"
  {
    ExcludeCompaniesQuoted();
    var q := ["'時報'", "'三星'", "'中華'", "'力士'", "'全國'"];
    JoinCons(q[3], q[4..], ", ");
    JoinCons(q[2], q[3..], ", ");
    JoinCons(q[1], q[2..], ", ");
    JoinCons(q[0], q[1..], ", ");
    assert q[4..] == [q[4]];
    AppendAssoc3(q[0] + ", ", q[1] + ", ", q[2] + ", ", q[3] + ", " + q[4]);
  }

  lemma ExcludeCompaniesQuoted()
    ensures Quoted(ExcludeCompanies) == ["'時報'", "'三星'", "'中華'", "'力士'", "'全國'"]
  {
    var q := Quoted(ExcludeCompanies);
    assert q[0] == "'時報'" && q[1] == "'三星'" && q[2] == "'中華'" && q[3] == "'力士'" && q[4] == "'全國'";
  }

  function FrontMatterLines(today: string): seq<string>
  {
    ["---",
     "title: \"台股事件雷達｜" + today + "\"",
     "date: \"" + today + "\"",
     "type: \"daily-radar\"",
     "range_days: 3",
     "exclude_companies: " + PyListText(ExcludeCompanies),
     "---\n"]
  }

  function SummaryLines(events: Sheet, newCount: nat, p: Parsers): seq<string>
  {
    var top := TopLine(events.rows);
    ["## 今日摘要",
     "- 事件數：" + NatToString(|events.rows|),
     "- 新增事件（NEW）：" + NatToString(newCount),
     "- 熱度上升事件（Δ>0）：" + NatToString(TrendingCount(events, p))]
    + (if top != "" then ["- 最高熱度事件：" + top] else [])
    + [""]
  }

  function NewTag(row: Row): string
  {
    if Safe(Get(row, "NEW")) == "NEW" then " **NEW**" else ""
  }

  /** `### i) name`, then the tag. */
  function Heading(i: nat, row: Row): string
  {
    Join(["### ", NatToString(i), ") ", Safe(Get(row, "事件")), NewTag(row)], "")
  }

  /** The numbered line of the `j`-th representative article. */
  function SourceLine(j: nat, r: Ranked): string
  {
    Join(["  ", NatToString(j), ". [", Safe(Get(r.row, "標題")), "](", Safe(Get(r.row, "連結")),
          ")（", Safe(Get(r.row, "來源")), "｜", Safe(Get(r.row, "發布時間")), "）"], "")
  }

  const NoSourceLine: string := "- 代表新聞：無（未在 News 中匹配到同公司+同事件）\n"
  const SourcesTitle: string := "- 代表新聞："

  function SourceBlock(rep: seq<Ranked>): seq<string>
  {
    if rep == [] then [NoSourceLine] else [SourcesTitle] + Numbered(rep, SourceLine) + [""]
  }

  /** The fields of one event, after its heading and before its articles. */
  function EventFields(row: Row): seq<string>
  {
    var tokens := Safe(Get(row, "命中詞"));
    ["- 極性：" + Safe(Get(row, "極性")),
     "- 主題：" + Safe(Get(row, "主題")),
     "- 公司：" + Safe(Get(row, "公司")),
     Join(["- 熱度：", Safe(Get(row, "今日熱度")), "（Δ", Safe(Get(row, "熱度變化")), "）｜篇數：",
           Safe(Get(row, "篇數")), "｜高信心：", Safe(Get(row, "高信心篇數"))], "")]
    + (if tokens != "" then ["- 命中詞：" + tokens] else [])
  }

  /** The articles picked for an event row: up to 6 with its event and
      company. */
  function RepFor(news: seq<Row>, row: Row, p: Parsers): seq<Ranked>
  {
    PickSpec(news, Safe(Get(row, "事件")), Safe(Get(row, "公司")), 6, p)
  }

  function EventBlock(i: nat, row: Row, news: seq<Row>, p: Parsers): seq<string>
  {
    [Heading(i, row)] + EventFields(row) + SourceBlock(RepFor(news, row, p))
  }

  /** The blocks of the event rows, numbered from 1. */
  function EventBlocks(rows: seq<Row>, news: seq<Row>, p: Parsers): seq<string>
  {
    if rows == [] then []
    else EventBlocks(rows[..|rows| - 1], news, p) + EventBlock(|rows|, rows[|rows| - 1], news, p)
  }

  const EventsTitle: string := "## 事件排行（EventRadarPlus）"
  const NoEventLine: string := "> 今日沒有事件排行資料（EventRadarPlus 為空）。\n"

  function EventSection(evtTop: seq<Row>, news: seq<Row>, p: Parsers): seq<string>
  {
    [EventsTitle] + if evtTop == [] then [NoEventLine] else EventBlocks(evtTop, news, p)
  }

  const HeatTitle: string := "## 公司熱度（CompanyHeat｜Top 20）"
  const HeatHeader: string := "| 公司 | 熱度 | 出現篇數 | 高信心篇數 | 主要主題 | 主要子題 |"
  const HeatRule: string := "|---|---:|---:|---:|---|---|"
  const NoHeatLine: string := "> 今日沒有公司熱度資料（CompanyHeat 為空）。\n"

  function HeatLine(r: Row): string
  {
    Join(["| ", Safe(Get(r, "公司")), " | ", Safe(Get(r, "熱度")), " | ", Safe(Get(r, "出現篇數")),
          " | ", Safe(Get(r, "高信心篇數")), " | ", Safe(Get(r, "主要主題")), " | ", Safe(Get(r, "主要子題")), " |"], "")
  }

  function HeatSection(heatTop: seq<Row>): seq<string>
  {
    [HeatTitle] + if heatTop == [] then [NoHeatLine] else [HeatHeader, HeatRule] + Lines(heatTop, HeatLine) + [""]
  }

  const RunTitle: string := "## 抓取狀態（RunLog｜最新一次）"
  const NoRunLine: string := "> 今日沒有 RunLog 資料。\n"

  /** `runinfo`: the last run-log row, if there is one with any column. */
  function RunInfo(rows: seq<Row>): (r: Option<Row>)
    ensures r.Some? <==> rows != [] && rows[|rows| - 1] != map[]
    ensures r.Some? ==> r.value == rows[|rows| - 1]
  {
    if rows == [] || rows[|rows| - 1] == map[] then None else Some(rows[|rows| - 1])
  }

  function RunLines(r: Row): seq<string>
  {
    ["- run_at：" + Safe(Get(r, "run_at")),
     "- cutoff_dt：" + Safe(Get(r, "cutoff_dt")),
     Join(["- keywords：", Safe(Get(r, "keywords")), "｜domains：", Safe(Get(r, "domains"))], ""),
     "- candidates_grouped：" + Safe(Get(r, "candidates_grouped")),
     "- rows_fetched：" + Safe(Get(r, "rows_fetched")),
     "- fallback_rate_pct：" + Safe(Get(r, "fallback_rate_pct")),
     "- cache_path：" + Safe(Get(r, "cache_path")),
     ""]
  }

  function RunLogSection(info: Option<Row>): seq<string>
  {
    [RunTitle] + if info.None? then [NoRunLine] else RunLines(info.value)
  }

  /** The lines of the report of a workbook that has every sheet. */
  function ReportLines(wb: Workbook, today: string, topEvents: int, p: Parsers): seq<string>
  {
    FrontMatterLines(today)
    + SummaryLines(wb.events, NewCount(wb.events), p)
    + EventSection(Head(wb.events.rows, topEvents), wb.news.rows, p)
    + HeatSection(Head(wb.heat.rows, 20))
    + RunLogSection(RunInfo(wb.runLog.rows))
  }

  /** What `export_daily_markdown` does: fail before writing anything when
      the file or a sheet is missing, else write the report. */
  function ExportSpec(wb: Workbook, today: string, topEvents: int, p: Parsers): (r: Outcome)
    ensures !wb.fileExists ==> r == Failed(FileNotFound)
    ensures r.Written? <==> wb.fileExists && forall i :: 0 <= i < |NeededSheets| ==> NeededSheets[i] in wb.sheetNames
    ensures r.Failed? && r.error.MissingSheet? ==>
      wb.fileExists && r.error.name in NeededSheets && r.error.name !in wb.sheetNames
    ensures wb.fileExists && FirstMissing(NeededSheets, wb.sheetNames).Some? ==>
      r == Failed(MissingSheet(FirstMissing(NeededSheets, wb.sheetNames).value))
  {
    if !wb.fileExists then Failed(FileNotFound)
    else
      var missing := FirstMissing(NeededSheets, wb.sheetNames);
      if missing.Some? then Failed(MissingSheet(missing.value))
      else Written(ReportLines(wb, today, topEvents, p))
  }

  // ---------------------------------------------------------------------
  // The exporter

  /** `export_daily_markdown(excel_path, top_events=topEvents)`: checks the
      sheets one by one, then appends the lines of the report. */
  method ExportDailyMarkdown(wb: Workbook, today: string, topEvents: int, p: Parsers) returns (out: Outcome)
    ensures out == ExportSpec(wb, today, topEvents, p)
  {
    if !wb.fileExists {
      return Failed(FileNotFound);
    }
    var k := 0;
    while k < |NeededSheets|
      invariant 0 <= k <= |NeededSheets|
      invariant FirstMissing(NeededSheets, wb.sheetNames) == FirstMissing(NeededSheets[k..], wb.sheetNames)
    {
      if NeededSheets[k] !in wb.sheetNames {
        return Failed(MissingSheet(NeededSheets[k]));
      }
      assert NeededSheets[k..][1..] == NeededSheets[k + 1..];
      k := k + 1;
    }
    assert NeededSheets[k..] == [];

    var lines := FrontMatterLines(today) + SummaryLines(wb.events, NewCount(wb.events), p);
    var events := AppendEvents(Head(wb.events.rows, topEvents), wb.news.rows, p);
    var heat := AppendHeat(Head(wb.heat.rows, 20));
    lines := lines + events + heat + RunLogSection(RunInfo(wb.runLog.rows));
    out := Written(lines);
  }

  /** The loop over the listed events, with the inner loop over each
      event's articles. */
  method AppendEvents(evtTop: seq<Row>, news: seq<Row>, p: Parsers) returns (lines: seq<string>)
    ensures lines == EventSection(evtTop, news, p)
  {
    lines := [EventsTitle];
    if evtTop == [] {
      lines := lines + [NoEventLine];
      return;
    }
    ghost var head := lines;
    var i := 0;
    assert EventBlocks(evtTop[..0], news, p) == [];
    while i < |evtTop|
      invariant 0 <= i <= |evtTop|
      invariant lines == head + EventBlocks(evtTop[..i], news, p)
    {
      var row := evtTop[i];
      ghost var mark := lines;
      var rep := PickRepresentativeNews(news, Safe(Get(row, "事件")), Safe(Get(row, "公司")), 6, p);
      var block := AppendSources(rep);
      lines := lines + ([Heading(i + 1, row)] + EventFields(row) + block);
      ghost var done, next := EventBlocks(evtTop[..i], news, p), EventBlock(i + 1, row, news, p);
      assert lines == mark + next;
      EventBlocksSnoc(evtTop, i, news, p);
      AppendAssoc(head, done, next);
      i := i + 1;
    }
    assert evtTop[..|evtTop|] == evtTop;
  }

  /** The article lines of one event. */
  method AppendSources(rep: seq<Ranked>) returns (lines: seq<string>)
    ensures lines == SourceBlock(rep)
  {
    if rep == [] {
      return [NoSourceLine];
    }
    lines := [SourcesTitle];
    ghost var head := lines;
    var j := 0;
    assert Numbered(rep[..0], SourceLine) == [];
    while j < |rep|
      invariant 0 <= j <= |rep|
      invariant lines == head + Numbered(rep[..j], SourceLine)
    {
      NumberedSnoc(rep, SourceLine, j);
      AppendAssoc(head, Numbered(rep[..j], SourceLine), [SourceLine(j + 1, rep[j])]);
      lines := lines + [SourceLine(j + 1, rep[j])];
      j := j + 1;
    }
    assert rep[..|rep|] == rep;
    lines := lines + [""];
  }

  /** The heat table. */
  method AppendHeat(heatTop: seq<Row>) returns (lines: seq<string>)
    ensures lines == HeatSection(heatTop)
  {
    lines := [HeatTitle];
    if heatTop == [] {
      lines := lines + [NoHeatLine];
      return;
    }
    lines := lines + [HeatHeader, HeatRule];
    ghost var head := lines;
    var i := 0;
    assert Lines(heatTop[..0], HeatLine) == [];
    while i < |heatTop|
      invariant 0 <= i <= |heatTop|
      invariant lines == head + Lines(heatTop[..i], HeatLine)
    {
      LinesSnoc(heatTop, HeatLine, i);
      AppendAssoc(head, Lines(heatTop[..i], HeatLine), [HeatLine(heatTop[i])]);
      lines := lines + [HeatLine(heatTop[i])];
      i := i + 1;
    }
    assert heatTop[..|heatTop|] == heatTop;
    lines := lines + [""];
    HeatSectionUnfold(heatTop);
  }

  lemma HeatSectionUnfold(top: seq<Row>)
    requires top != []
    ensures HeatSection(top) == [HeatTitle] + [HeatHeader, HeatRule] + Lines(top, HeatLine) + [""]
  {
    AppendAssoc3([HeatTitle], [HeatHeader, HeatRule], Lines(top, HeatLine), [""]);
  }

  lemma AppendAssoc3<T>(a: seq<T>, b: seq<T>, c: seq<T>, d: seq<T>)
    ensures a + (b + c + d) == a + b + c + d
  {
  }

  lemma EventBlocksSnoc(rows: seq<Row>, i: nat, news: seq<Row>, p: Parsers)
    requires i < |rows|
    ensures EventBlocks(rows[..i + 1], news, p) == EventBlocks(rows[..i], news, p) + EventBlock(i + 1, rows[i], news, p)
  {
    assert rows[..i + 1][..i] == rows[..i];
  }

  // ---------------------------------------------------------------------
  // Properties of the report

  /** The pieces of an f-string start with its first piece and end with its
      last. */
  lemma JoinEnds(parts: seq<string>, last: string)
    requires parts != []
    ensures var s := Join(parts + [last], "");
      |s| >= |parts[0]| + |last| && s[..|parts[0]|] == parts[0] && s[|s| - |last|..] == last
  {
    JoinSnoc(parts, last, "");
    if |parts| > 1 {
      assert Join(parts, "") == parts[0] + "" + Join(parts[1..], "");
    }
  }

  predicate IsHeading(line: string)
  {
    |line| >= 4 && line[..4] == "### "
  }

  /** The lines that are event headings. */
  function Headings(lines: seq<string>): seq<string>
  {
    Filter(lines, IsHeading)
  }

  /** A line that differs from `### ` in one of its first three characters
      is no heading. */
  lemma NotHeading(line: string, k: nat)
    requires k < 3 && k < |line| && line[k] != "### "[k]
    ensures !IsHeading(line)
  {
    if |line| >= 4 {
      assert line[..4][k] == line[k];
    }
  }

  lemma HeadingIsHeading(i: nat, row: Row)
    ensures IsHeading(Heading(i, row))
  {
    var parts := ["### ", NatToString(i), ") ", Safe(Get(row, "事件"))];
    assert parts + [NewTag(row)] == ["### ", NatToString(i), ") ", Safe(Get(row, "事件")), NewTag(row)];
    JoinEnds(parts, NewTag(row));
  }

  lemma SourceLineNotHeading(j: nat, r: Ranked)
    ensures !IsHeading(SourceLine(j, r))
  {
    var parts := ["  ", NatToString(j), ". [", Safe(Get(r.row, "標題")), "](", Safe(Get(r.row, "連結")),
                  ")（", Safe(Get(r.row, "來源")), "｜", Safe(Get(r.row, "發布時間"))];
    assert parts + ["）"] == ["  ", NatToString(j), ". [", Safe(Get(r.row, "標題")), "](", Safe(Get(r.row, "連結")),
                              ")（", Safe(Get(r.row, "來源")), "｜", Safe(Get(r.row, "發布時間")), "）"];
    JoinEnds(parts, "）");
    var s := SourceLine(j, r);
    assert s[..2] == "  ";
    NotHeading(s, 0);
  }

  /** A line that starts like a list item, `- x`, is no heading. */
  lemma ItemNotHeading(head: string, rest: string)
    requires |head| >= 1 && head[0] == '-'
    ensures !IsHeading(head + rest)
  {
    NotHeading(head + rest, 0);
  }

  /** Nor is a line joined from pieces the first of which is such an item. */
  lemma ItemJoinNotHeading(parts: seq<string>)
    requires |parts| >= 2 && |parts[0]| >= 1 && parts[0][0] == '-'
    ensures !IsHeading(Join(parts, ""))
  {
    assert parts == [parts[0]] + parts[1..];
    JoinCons(parts[0], parts[1..], "");
    ItemNotHeading(parts[0], "" + Join(parts[1..], ""));
  }

  lemma FieldsNoHeadings(row: Row)
    ensures Headings(EventFields(row)) == []
  {
    var f := EventFields(row);
    ItemJoinNotHeading(["- 熱度：", Safe(Get(row, "今日熱度")), "（Δ", Safe(Get(row, "熱度變化")), "）｜篇數：",
                        Safe(Get(row, "篇數")), "｜高信心：", Safe(Get(row, "高信心篇數"))]);
    ItemNotHeading("- 極性：", Safe(Get(row, "極性")));
    ItemNotHeading("- 主題：", Safe(Get(row, "主題")));
    ItemNotHeading("- 公司：", Safe(Get(row, "公司")));
    ItemNotHeading("- 命中詞：", Safe(Get(row, "命中詞")));
    assert forall k :: 0 <= k < |f| ==> !IsHeading(f[k]);
    FilterNoneKept(f, IsHeading);
  }

  lemma SourcesNoHeadings(rep: seq<Ranked>)
    ensures Headings(SourceBlock(rep)) == []
  {
    var b := SourceBlock(rep);
    SourceBlockShape(rep);
    if rep == [] {
      NotHeading(NoSourceLine, 0);
    } else {
      forall k | 0 <= k < |b| ensures !IsHeading(b[k]) {
        if k == 0 {
          NotHeading(SourcesTitle, 0);
        } else if k <= |rep| {
          SourceLineNotHeading(k, rep[k - 1]);
        }
      }
    }
    FilterNoneKept(b, IsHeading);
  }

  /** The only heading of an event block is its own. */
  lemma BlockHeadings(i: nat, row: Row, news: seq<Row>, p: Parsers)
    ensures Headings(EventBlock(i, row, news, p)) == [Heading(i, row)]
  {
    var h := [Heading(i, row)];
    var f := EventFields(row);
    var b := SourceBlock(RepFor(news, row, p));
    HeadingIsHeading(i, row);
    FieldsNoHeadings(row);
    SourcesNoHeadings(RepFor(news, row, p));
    FilterConcat(h, f, IsHeading);
    FilterConcat(h + f, b, IsHeading);
    assert Filter(h, IsHeading) == h by {
      assert h[1..] == [];
    }
  }

  lemma {:induction false} BlocksHeadings(rows: seq<Row>, news: seq<Row>, p: Parsers)
    ensures Headings(EventBlocks(rows, news, p)) == Numbered(rows, Heading)
  {
    if rows != [] {
      var init := rows[..|rows| - 1];
      BlocksHeadings(init, news, p);
      BlockHeadings(|rows|, rows[|rows| - 1], news, p);
      FilterConcat(EventBlocks(init, news, p), EventBlock(|rows|, rows[|rows| - 1], news, p), IsHeading);
    }
  }

  /** The event section has one heading per listed event, numbered 1 to
      `min(top_events, rows)` in sheet order. */
  lemma EventHeadingsNumbered(events: seq<Row>, news: seq<Row>, topEvents: int, p: Parsers)
    ensures var shown := Head(events, topEvents);
      && (topEvents >= 0 ==> |shown| == if topEvents < |events| then topEvents else |events|)
      && Headings(EventSection(shown, news, p)) == Numbered(shown, Heading)
  {
    var shown := Head(events, topEvents);
    NotHeading(EventsTitle, 2);
    FilterNoneKept([EventsTitle], IsHeading);
    if shown == [] {
      NotHeading(NoEventLine, 0);
      FilterNoneKept([NoEventLine], IsHeading);
      FilterConcat([EventsTitle], [NoEventLine], IsHeading);
    } else {
      BlocksHeadings(shown, news, p);
      FilterConcat([EventsTitle], EventBlocks(shown, news, p), IsHeading);
    }
  }

  /** The heading carries the ` **NEW**` mark exactly when the row's `NEW`
      reads "NEW" once trimmed; otherwise it is `### i) name` alone. */
  lemma NewMarkOnHeading(i: nat, row: Row)
    ensures Safe(Get(row, "NEW")) == "NEW" ==> EndsWith(Heading(i, row), " **NEW**")
    ensures Safe(Get(row, "NEW")) != "NEW" ==>
      Heading(i, row) == Join(["### ", NatToString(i), ") ", Safe(Get(row, "事件"))], "")
  {
    var parts := ["### ", NatToString(i), ") ", Safe(Get(row, "事件"))];
    assert parts + [NewTag(row)] == ["### ", NatToString(i), ") ", Safe(Get(row, "事件")), NewTag(row)];
    JoinEnds(parts, NewTag(row));
    if Safe(Get(row, "NEW")) != "NEW" {
      JoinSnoc(parts, "", "");
      assert Join(parts, "") + "" + "" == Join(parts, "");
    }
  }

  /** Every row the summary counts as new is marked on its heading, and so is
      a row whose cell is " NEW", which the count leaves out. */
  lemma NewMarkCoversCount(i: nat, row: Row)
    ensures CountNew([row]) == 1 ==> EndsWith(Heading(i, row), " **NEW**")
    ensures Get(row, "NEW") == Some(Text(" NEW")) ==>
      CountNew([row]) == 0 && EndsWith(Heading(i, row), " **NEW**")
  {
    var w := "NEW";
    assert [row][..0] == [];
    if Get(row, "NEW") == Some(Text(w)) {
      assert w[0] == 'N' && w[2] == 'W';
      TrimOfClean(w, PySpace);
      NewMarkOnHeading(i, row);
    } else if Get(row, "NEW") == Some(Text(" NEW")) {
      assert w[0] == 'N' && w[2] == 'W';
      assert " NEW" == [' '] + w;
      TrimOfClean(w, PySpace);
      TrimDropsBlank(' ', w, PySpace);
      NewMarkOnHeading(i, row);
    }
  }

  /** The heat section is a header and a rule line followed by one row per
      company, at most 20, and a blank line; or a single notice. */
  lemma HeatTableAtMost20(heat: seq<Row>)
    ensures var s := HeatSection(Head(heat, 20));
      && (heat == [] ==> s == [HeatTitle, NoHeatLine])
      && (heat != [] ==>
            && s[..3] == [HeatTitle, HeatHeader, HeatRule]
            && |s| == 4 + (if |heat| < 20 then |heat| else 20)
            && (forall i :: 3 <= i < |s| - 1 ==> s[i] == HeatLine(heat[i - 3]))
            && s[|s| - 1] == "")
  {
    var top := Head(heat, 20);
    if heat != [] {
      HeatSectionShape(top);
      forall i | 0 <= i < |top| ensures top[i] == heat[i] {
      }
    }
  }

  lemma HeatSectionShape(top: seq<Row>)
    requires top != []
    ensures var s := HeatSection(top);
      && |s| == |top| + 4 && s[..3] == [HeatTitle, HeatHeader, HeatRule]
      && (forall i :: 3 <= i < |s| - 1 ==> s[i] == HeatLine(top[i - 3]))
      && s[|s| - 1] == ""
  {
    TableShape(HeatTitle, HeatHeader, HeatRule, top, HeatLine);
  }

  /** A title, a header and a rule line, one line per row and a blank line. */
  lemma TableShape<T>(title: string, header: string, rule: string, rows: seq<T>, line: T -> string)
    ensures var s := [title] + ([header, rule] + Lines(rows, line) + [""]);
      && |s| == |rows| + 4 && s[..3] == [title, header, rule]
      && (forall i :: 3 <= i < |s| - 1 ==> s[i] == line(rows[i - 3]))
      && s[|s| - 1] == ""
  {
    var body := Lines(rows, line);
    var s := [title] + ([header, rule] + body + [""]);
    assert s == [title, header, rule] + body + [""];
  }

  /** Each event's articles are numbered 1 to n, at most 6 of them, with
      distinct links; without any article one line says so. */
  lemma SourcesNumbered(row: Row, news: seq<Row>, p: Parsers)
    ensures var rep := RepFor(news, row, p);
      var block := SourceBlock(rep);
      && |rep| <= 6
      && (forall i, j :: 0 <= i < j < |rep| ==> rep[i].link != rep[j].link)
      && (rep == [] <==> block == [NoSourceLine])
      && (rep != [] ==>
            && |block| == |rep| + 2
            && block[0] == SourcesTitle && block[|block| - 1] == ""
            && forall j :: 1 <= j <= |rep| ==> block[j] == SourceLine(j, rep[j - 1]))
  {
    PickedRowsDistinctAndSorted(news, Safe(Get(row, "事件")), Safe(Get(row, "公司")), 6, p);
    SourceBlockShape(RepFor(news, row, p));
  }

  lemma SourceBlockShape(rep: seq<Ranked>)
    ensures var block := SourceBlock(rep);
      && (rep == [] <==> block == [NoSourceLine])
      && (rep != [] ==>
            && |block| == |rep| + 2
            && block[0] == SourcesTitle && block[|block| - 1] == ""
            && forall j :: 1 <= j <= |rep| ==> block[j] == SourceLine(j, rep[j - 1]))
  {
    if rep != [] {
      FramedShape(SourcesTitle, Numbered(rep, SourceLine), "");
    }
  }

  lemma FramedShape(first: string, body: seq<string>, last: string)
    ensures var s := [first] + body + [last];
      && |s| == |body| + 2 && s[0] == first && s[|s| - 1] == last
      && forall j :: 1 <= j <= |body| ==> s[j] == body[j - 1]
  {
  }
}
