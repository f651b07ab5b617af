/** The report exports of the analytics screen: the row table behind the CSV
    download and its serialisation, the two sheets handed to the spreadsheet
    writer, and the tables handed to the PDF writer. Writing the files is
    left to those libraries; what is modelled is the content given to them. */
module ReportExport {
  import opened Wrappers
  import opened Strings
  import opened Analytics

  /** A table cell. Counts stay numbers; labels, names and percentages are
      strings. */
  datatype Cell = Num(n: nat) | Str(s: string)

  type Row = seq<Cell>

  /** The CSV text of a cell. Numbers are written bare, as their digits; a
      string is wrapped in double quotes with its content copied unchanged,
      embedded quotes included. */
  function CellText(c: Cell): string {
    match c
    case Num(n) => NatToString(n)
    case Str(s) => "\"" + s + "\""
  }

  /** A number cell is its digits; a string cell is its content unchanged
      between two double quotes. */
  lemma CellTextShape(c: Cell)
    ensures c.Num? ==> CellText(c) == NatToString(c.n)
    ensures c.Str? ==> var t := CellText(c);
      |t| == |c.s| + 2 && t[0] == '"' && t[|t| - 1] == '"' && t[1..|t| - 1] == c.s
  {
  }

  function CellTexts(row: Row): (ts: seq<string>)
    ensures |ts| == |row|
    ensures forall i :: 0 <= i < |row| ==> ts[i] == CellText(row[i])
  {
    seq(|row|, i requires 0 <= i < |row| => CellText(row[i]))
  }

  /** A row's line: its cell texts joined with commas. */
  function RowText(row: Row): string {
    Join(CellTexts(row), ',')
  }

  function RowTexts(rows: seq<Row>): (ls: seq<string>)
    ensures |ls| == |rows|
    ensures forall i :: 0 <= i < |rows| ==> ls[i] == RowText(rows[i])
  {
    seq(|rows|, i requires 0 <= i < |rows| => RowText(rows[i]))
  }

  /** The report text: the row lines joined with newlines, so no newline
      follows the last row. */
  function CsvText(rows: seq<Row>): string {
    Join(RowTexts(rows), '\n')
  }

  /** `${p}%` */
  function PercentCell(p: Rounded): Cell {
    Str(RoundedText(p) + "%")
  }

  /** The "Metric"/"Value" header and the six summary rows. */
  function SummaryRows(stats: FeedbackStats, timeRange: string): seq<Row> {
    [
      [Str("Metric"), Str("Value")],
      [Str("Total Feedbacks"), Num(stats.totalFeedbacks)],
      [Str("Positive Feedbacks"), Num(stats.totalPositive)],
      [Str("Negative Feedbacks"), Num(stats.totalNegative)],
      [Str("Positive Percentage"), PercentCell(PositivePercentage(Some(stats)))],
      [Str("Negative Percentage"), PercentCell(NegativePercentage(Some(stats)))],
      [Str("Time Range"), Str(ExportLabel(timeRange))]
    ]
  }

  const SectorHeader: Row :=
    [Str("Sector"), Str("Total"), Str("Positive"), Str("Negative"), Str("Positive %"), Str("Negative %")]

  /** One sector's row; both percentages are of that sector's own total. */
  function SectorRow(e: SectorCounts): Row {
    [ Str(e.name), Num(e.total), Num(e.positive), Num(e.negative),
      PercentCell(Percentage(e.positive, e.total)), PercentCell(Percentage(e.negative, e.total)) ]
  }

  /** The sector rows, one per entry in entry order: the PDF's
      `Object.entries(...).map(...)`, and what the CSV export's `forEach`
      pushes. */
  function SectorRows(bd: seq<SectorCounts>): (rows: seq<Row>)
    ensures |rows| == |bd|
  {
    seq(|bd|, i requires 0 <= i < |bd| => SectorRow(bd[i]))
  }

  /** Pushing the row of entry `i` extends the rows of the entries before it. */
  lemma SectorRowsPush(bd: seq<SectorCounts>, i: nat)
    requires i < |bd|
    ensures SectorRows(bd[..i + 1]) == SectorRows(bd[..i]) + [SectorRow(bd[i])]
  {
    assert bd[..i + 1][..i] == bd[..i];
  }

  /** The whole CSV table: summary, blank row, sector header, sector rows. */
  function CsvRows(stats: FeedbackStats, timeRange: string): seq<Row> {
    SummaryRows(stats, timeRange) + [[], SectorHeader] + SectorRows(stats.sectorBreakdown)
  }

  /** The `csvContent` table of `exportToCSV`: the summary rows, a blank row
      and the sector header, then one row pushed per breakdown entry. */
  method BuildCsvContent(s: FeedbackStats, timeRange: string) returns (csvContent: seq<Row>)
    ensures csvContent == CsvRows(s, timeRange)
  {
    var bd := s.sectorBreakdown;
    csvContent := SummaryRows(s, timeRange) + [[], SectorHeader];
    var i := 0;
    while i < |bd|
      invariant 0 <= i <= |bd|
      invariant csvContent == SummaryRows(s, timeRange) + [[], SectorHeader] + SectorRows(bd[..i])
    {
      var data := bd[i];
      var sectorPosPercent := Percentage(data.positive, data.total);
      var sectorNegPercent := Percentage(data.negative, data.total);
      var row := [
        Str(data.name), Num(data.total), Num(data.positive), Num(data.negative),
        PercentCell(sectorPosPercent), PercentCell(sectorNegPercent)
      ];
      SectorRowsPush(bd, i);
      csvContent := csvContent + [row];
      i := i + 1;
    }
    assert bd[..i] == bd;
  }

  /** `exportToCSV`: nothing while no statistics are loaded; otherwise the
      table is built and serialised, one line per row. */
  method ExportToCsv(stats: Option<FeedbackStats>, timeRange: string) returns (csv: Option<string>)
    ensures stats.None? ==> csv == None
    ensures stats.Some? ==> csv == Some(CsvText(CsvRows(stats.value, timeRange)))
  {
    if stats.None? {
      return None;
    }
    var csvContent := BuildCsvContent(stats.value, timeRange);
    csv := Some(CsvText(csvContent));
  }

  /** The CSV table has the summary rows, a blank row, the sector header and
      one row per sector in breakdown order: 9 rows plus one per sector. */
  lemma CsvLayout(stats: FeedbackStats, timeRange: string)
    ensures var rows := CsvRows(stats, timeRange);
      && |rows| == 9 + |stats.sectorBreakdown|
      && rows[..7] == SummaryRows(stats, timeRange)
      && rows[7] == []
      && rows[8] == SectorHeader
      && forall i :: 0 <= i < |stats.sectorBreakdown| ==> rows[9 + i] == SectorRow(stats.sectorBreakdown[i])
  {
    var bd := stats.sectorBreakdown;
    assert CsvRows(stats, timeRange)[9..] == SectorRows(bd);
  }

  /** The summary's two percentage rows hold the positive and negative
      shares of all feedback. */
  lemma SummaryPercentages(stats: FeedbackStats, timeRange: string)
    ensures var rows := SummaryRows(stats, timeRange);
      && rows[4] == [Str("Positive Percentage"), PercentCell(Percentage(stats.totalPositive, stats.totalFeedbacks))]
      && rows[5] == [Str("Negative Percentage"), PercentCell(Percentage(stats.totalNegative, stats.totalFeedbacks))]
  {
  }

  /** A row's cells contain no separator when its string cells do not. */
  predicate SafeRow(row: Row, c: char) {
    forall i :: 0 <= i < |row| ==> row[i].Str? ==> c !in row[i].s
  }

  lemma CellTextAvoids(cell: Cell, c: char)
    requires c != '"' && !IsDigit(c)
    requires cell.Str? ==> c !in cell.s
    ensures c !in CellText(cell)
  {
    var t := CellText(cell);
    CellTextShape(cell);
    if cell.Str? {
      assert t == [t[0]] + t[1..|t| - 1] + [t[|t| - 1]];
    }
  }

  lemma {:induction false} JoinAvoids(parts: seq<string>, sep: char, c: char)
    requires c != sep
    requires forall i :: 0 <= i < |parts| ==> c !in parts[i]
    ensures c !in Join(parts, sep)
  {
    if |parts| > 1 {
      JoinAvoids(parts[1..], sep, c);
    }
  }

  lemma RowTextAvoids(row: Row, c: char)
    requires c != ',' && c != '"' && !IsDigit(c)
    requires SafeRow(row, c)
    ensures c !in RowText(row)
  {
    forall i | 0 <= i < |row| ensures c !in CellTexts(row)[i] {
      CellTextAvoids(row[i], c);
    }
    JoinAvoids(CellTexts(row), ',', c);
  }

  /** Splitting a non-empty row's text at commas gives back its cells' texts,
      when no string cell holds a comma. */
  lemma RowFields(row: Row)
    requires |row| > 0 && SafeRow(row, ',')
    ensures Split(RowText(row), ',') == CellTexts(row)
  {
    forall i | 0 <= i < |row| ensures ',' !in CellTexts(row)[i] {
      CellTextAvoids(row[i], ',');
    }
    SplitJoin(CellTexts(row), ',');
  }

  /** Splitting a CSV text at newlines gives back one line per row, when no
      string cell holds a newline. */
  lemma CsvTextLines(rows: seq<Row>)
    requires |rows| > 0
    requires forall i :: 0 <= i < |rows| ==> SafeRow(rows[i], '\n')
    ensures Split(CsvText(rows), '\n') == RowTexts(rows)
  {
    forall i | 0 <= i < |rows| ensures '\n' !in RowTexts(rows)[i] {
      RowTextAvoids(rows[i], '\n');
    }
    SplitJoin(RowTexts(rows), '\n');
  }

  /** Every string cell is plain text: no comma and no newline. */
  predicate PlainRow(row: Row) {
    forall i :: 0 <= i < |row| ==> row[i].Str? ==> PlainText(row[i].s)
  }

  lemma PlainRowSafe(row: Row, c: char)
    requires PlainRow(row) && (c == ',' || c == '\n')
    ensures SafeRow(row, c)
  {
  }

  lemma PercentCellPlain(p: Rounded)
    ensures PercentCell(p).Str? && PlainText(PercentCell(p).s)
  {
    var r := RoundedText(p);
    var t := r + "%";
    forall i | 0 <= i < |t| ensures t[i] != ',' && t[i] != '\n' {
      if i < |r| {
        assert t[i] == r[i];
      }
    }
  }

  lemma LabelRowPlain(name: string, value: Cell)
    requires PlainText(name)
    requires value.Str? ==> PlainText(value.s)
    ensures PlainRow([Str(name), value])
  {
  }

  lemma SummaryLabelsPlain()
    ensures PlainText("Metric") && PlainText("Value") && PlainText("Total Feedbacks")
    ensures PlainText("Positive Feedbacks") && PlainText("Negative Feedbacks")
    ensures PlainText("Positive Percentage") && PlainText("Negative Percentage") && PlainText("Time Range")
  {
  }

  lemma CountRowsPlain(stats: FeedbackStats, timeRange: string)
    ensures var rows := SummaryRows(stats, timeRange);
      PlainRow(rows[0]) && PlainRow(rows[1]) && PlainRow(rows[2]) && PlainRow(rows[3])
  {
    SummaryLabelsPlain();
    LabelRowPlain("Metric", Str("Value"));
    LabelRowPlain("Total Feedbacks", Num(stats.totalFeedbacks));
    LabelRowPlain("Positive Feedbacks", Num(stats.totalPositive));
    LabelRowPlain("Negative Feedbacks", Num(stats.totalNegative));
  }

  lemma RateRowsPlain(stats: FeedbackStats, timeRange: string)
    ensures var rows := SummaryRows(stats, timeRange);
      PlainRow(rows[4]) && PlainRow(rows[5]) && PlainRow(rows[6])
  {
    SummaryLabelsPlain();
    var pos := Percentage(stats.totalPositive, stats.totalFeedbacks);
    var neg := Percentage(stats.totalNegative, stats.totalFeedbacks);
    PercentCellPlain(pos);
    PercentCellPlain(neg);
    LabelRowPlain("Positive Percentage", PercentCell(pos));
    LabelRowPlain("Negative Percentage", PercentCell(neg));
    LabelRowPlain("Time Range", Str(ExportLabel(timeRange)));
  }

  lemma SectorHeaderPlain()
    ensures PlainRow(SectorHeader)
  {
    assert PlainText("Sector") && PlainText("Total") && PlainText("Positive");
    assert PlainText("Negative") && PlainText("Positive %") && PlainText("Negative %");
  }

  /** The nine rows in front of the sector rows are plain text throughout. */
  lemma SummaryPlain(stats: FeedbackStats, timeRange: string)
    ensures forall i :: 0 <= i < 9 ==> PlainRow(CsvRows(stats, timeRange)[i])
  {
    var rows := CsvRows(stats, timeRange);
    var summary := SummaryRows(stats, timeRange);
    CsvLayout(stats, timeRange);
    CountRowsPlain(stats, timeRange);
    RateRowsPlain(stats, timeRange);
    SectorHeaderPlain();
    forall i | 0 <= i < 7 ensures PlainRow(rows[i]) {
      assert rows[i] == rows[..7][i];
    }
  }

  /** A sector row holds a separator only where its name does. */
  lemma SectorRowSafe(e: SectorCounts, c: char)
    requires (c == ',' || c == '\n') && c !in e.name
    ensures SafeRow(SectorRow(e), c)
  {
    PercentCellPlain(Percentage(e.positive, e.total));
    PercentCellPlain(Percentage(e.negative, e.total));
  }

  /** When no sector name holds a newline the report has 9 lines plus one per
      sector; line 8 (counting from 1) is empty and line 9 the sector header. */
  lemma CsvReportLines(stats: FeedbackStats, timeRange: string)
    requires forall i :: 0 <= i < |stats.sectorBreakdown| ==> '\n' !in stats.sectorBreakdown[i].name
    ensures var lines := Split(CsvText(CsvRows(stats, timeRange)), '\n');
      && lines == RowTexts(CsvRows(stats, timeRange))
      && |lines| == 9 + |stats.sectorBreakdown|
      && lines[7] == ""
      && lines[8] == RowText(SectorHeader)
  {
    var rows := CsvRows(stats, timeRange);
    CsvLayout(stats, timeRange);
    SummaryPlain(stats, timeRange);
    forall i | 0 <= i < |rows| ensures SafeRow(rows[i], '\n') {
      if i < 9 {
        PlainRowSafe(rows[i], '\n');
      } else {
        SectorRowSafe(stats.sectorBreakdown[i - 9], '\n');
      }
    }
    CsvTextLines(rows);
  }

  /** The six cell texts of a sector row: the quoted name, the three bare
      counts and the two quoted percentages. */
  lemma SectorCellTexts(e: SectorCounts)
    ensures var ts := CellTexts(SectorRow(e));
      && |ts| == 6
      && ts[0] == "\"" + e.name + "\""
      && ts[1] == NatToString(e.total)
      && ts[2] == NatToString(e.positive)
      && ts[3] == NatToString(e.negative)
      && ts[4] == "\"" + RoundedText(Percentage(e.positive, e.total)) + "%\""
      && ts[5] == "\"" + RoundedText(Percentage(e.negative, e.total)) + "%\""
  {
    var row := SectorRow(e);
    assert row[4] == Str(RoundedText(Percentage(e.positive, e.total)) + "%");
    assert row[5] == Str(RoundedText(Percentage(e.negative, e.total)) + "%");
  }

  /** A sector line splits at its commas into those six fields when the
      sector name holds no comma. */
  lemma SectorLineFields(e: SectorCounts)
    requires ',' !in e.name
    ensures Split(RowText(SectorRow(e)), ',') == CellTexts(SectorRow(e))
    ensures |Split(RowText(SectorRow(e)), ',')| == 6
  {
    SectorRowSafe(e, ',');
    RowFields(SectorRow(e));
  }

  /** A worked example: the "Sales" sector with 60 feedbacks, 50 positive
      and 10 negative is written as the line `"Sales",60,50,10,"83%","17%"`. */
  lemma SalesRowExample()
    ensures RowText(SectorRow(SectorCounts("Sales", 60, 50, 10))) == "\"Sales\",60,50,10,\"83%\",\"17%\""
  {
    SalesRowCells();
    SalesCellTexts();
    SalesFieldsJoin();
  }

  /** Step 1: the row holds the name, the three counts and 83% and 17%. */
  lemma SalesRowCells()
    ensures SectorRow(SectorCounts("Sales", 60, 50, 10)) == [Str("Sales"), Num(60), Num(50), Num(10), Str("83%"), Str("17%")]
  {
    assert "83" + "%" == "83%" && "17" + "%" == "17%";
    assert RoundedText(Percentage(50, 60)) == "83" && RoundedText(Percentage(10, 60)) == "17" by {
      PercentageExamples();
      assert NatToString(83) == "83" && NatToString(17) == "17";
    }
  }

  /** Step 2: the strings are quoted and the numbers left bare. */
  lemma SalesCellTexts()
    ensures CellTexts([Str("Sales"), Num(60), Num(50), Num(10), Str("83%"), Str("17%")])
         == ["\"Sales\"", "60", "50", "10", "\"83%\"", "\"17%\""]
  {
    var row := [Str("Sales"), Num(60), Num(50), Num(10), Str("83%"), Str("17%")];
    assert NatToString(60) == "60" && NatToString(50) == "50" && NatToString(10) == "10";
    assert CellText(row[0]) == "\"Sales\"";
    assert CellText(row[4]) == "\"83%\"" && CellText(row[5]) == "\"17%\"";
  }

  /** Step 3: the six fields joined with commas give the line. */
  lemma SalesFieldsJoin()
    ensures Join(["\"Sales\"", "60", "50", "10", "\"83%\"", "\"17%\""], ',') == "\"Sales\",60,50,10,\"83%\",\"17%\""
  {
    var parts := ["\"Sales\"", "60", "50", "10", "\"83%\"", "\"17%\""];
    SalesTailJoin();
    assert parts[1..] == ["60", "50", "10", "\"83%\"", "\"17%\""];
  }

  /** The last five fields join to `60,50,10,"83%","17%"`. */
  lemma SalesTailJoin()
    ensures Join(["60", "50", "10", "\"83%\"", "\"17%\""], ',') == "60,50,10,\"83%\",\"17%\""
  {
    var parts := ["60", "50", "10", "\"83%\"", "\"17%\""];
    SalesPercentsJoin();
    assert Join(parts[1..], ',') == "50,10,\"83%\",\"17%\"" by { assert parts[1..][1..] == parts[2..]; }
  }

  /** The last three fields join to `10,"83%","17%"`. */
  lemma SalesPercentsJoin()
    ensures Join(["10", "\"83%\"", "\"17%\""], ',') == "10,\"83%\",\"17%\""
  {
    var parts := ["10", "\"83%\"", "\"17%\""];
    assert Join(parts[1..], ',') == "\"83%\",\"17%\"" by { assert parts[1..][1..] == parts[2..]; }
  }

  /** With 100 feedbacks, 80 positive and 20 negative, the summary shows
      80% and 20%. */
  lemma SummaryRatesExample(stats: FeedbackStats, timeRange: string)
    requires stats.totalFeedbacks == 100 && stats.totalPositive == 80 && stats.totalNegative == 20
    ensures SummaryRows(stats, timeRange)[4][1] == Str("80%")
    ensures SummaryRows(stats, timeRange)[5][1] == Str("20%")
  {
    SummaryPercentages(stats, timeRange);
    assert RoundedText(Percentage(80, 100)) == "80" && RoundedText(Percentage(20, 100)) == "20" by {
      PercentageExamples();
      assert NatToString(80) == "80" && NatToString(20) == "20";
    }
  }

  /** With the sectors "Sales" (60, 50, 10) and "Support" (40, 30, 10) the
      report has 11 rows and its first sector line is the "Sales" line. */
  lemma SectorLinesExample(stats: FeedbackStats, timeRange: string)
    requires stats.sectorBreakdown == [SectorCounts("Sales", 60, 50, 10), SectorCounts("Support", 40, 30, 10)]
    ensures |CsvRows(stats, timeRange)| == 11
    ensures RowText(CsvRows(stats, timeRange)[9]) == "\"Sales\",60,50,10,\"83%\",\"17%\""
  {
    CsvLayout(stats, timeRange);
    var sales := SectorCounts("Sales", 60, 50, 10);
    assert CsvRows(stats, timeRange)[9] == SectorRow(sales) by {
      assert stats.sectorBreakdown[0] == sales;
    }
    SalesRowExample();
  }

  // ------------------------------------------------------------------
  // Spreadsheet export

  datatype Sheet = Sheet(name: string, rows: seq<Row>)

  /** A sector row of the spreadsheet: the counts go through `String(...)`. */
  function ExcelSectorRow(e: SectorCounts): Row {
    [ Str(e.name), Str(NatToString(e.total)), Str(NatToString(e.positive)), Str(NatToString(e.negative)),
      PercentCell(Percentage(e.positive, e.total)), PercentCell(Percentage(e.negative, e.total)) ]
  }

  /** The `sectorData` rows of `exportToExcel`: the sector header, then one
      row pushed per breakdown entry. */
  method BuildSectorData(bd: seq<SectorCounts>) returns (sectorData: seq<Row>)
    ensures |sectorData| == |bd| + 1 && sectorData[0] == SectorHeader
    ensures forall i :: 0 <= i < |bd| ==> sectorData[i + 1] == ExcelSectorRow(bd[i])
  {
    sectorData := [SectorHeader];
    var i := 0;
    while i < |bd|
      invariant 0 <= i <= |bd|
      invariant |sectorData| == i + 1 && sectorData[0] == SectorHeader
      invariant forall j :: 0 <= j < i ==> sectorData[j + 1] == ExcelSectorRow(bd[j])
    {
      var data := bd[i];
      var sectorPosPercent := Percentage(data.positive, data.total);
      var sectorNegPercent := Percentage(data.negative, data.total);
      var row := [
        Str(data.name), Str(NatToString(data.total)), Str(NatToString(data.positive)), Str(NatToString(data.negative)),
        PercentCell(sectorPosPercent), PercentCell(sectorNegPercent)
      ];
      sectorData := sectorData + [row];
      i := i + 1;
    }
  }

  /** `exportToExcel`: nothing while no statistics are loaded; otherwise a
      "Summary" sheet with the summary rows and a "Sector Breakdown" sheet
      whose rows are pushed one per sector. */
  method ExportToExcel(stats: Option<FeedbackStats>, timeRange: string) returns (book: Option<seq<Sheet>>)
    ensures stats.None? ==> book == None
    ensures stats.Some? ==>
      var bd := stats.value.sectorBreakdown;
      && book.Some? && |book.value| == 2
      && book.value[0] == Sheet("Summary", SummaryRows(stats.value, timeRange))
      && book.value[1].name == "Sector Breakdown"
      && |book.value[1].rows| == |bd| + 1
      && book.value[1].rows[0] == SectorHeader
      && forall i :: 0 <= i < |bd| ==> book.value[1].rows[i + 1] == ExcelSectorRow(bd[i])
  {
    if stats.None? {
      return None;
    }
    var mainData := SummaryRows(stats.value, timeRange);
    var sectorData := BuildSectorData(stats.value.sectorBreakdown);
    book := Some([Sheet("Summary", mainData), Sheet("Sector Breakdown", sectorData)]);
  }

  /** The text a cell shows in a table: a number's digits or the string. */
  function Shown(c: Cell): string {
    match c
    case Num(n) => NatToString(n)
    case Str(s) => s
  }

  /** The spreadsheet's sector rows show exactly what the CSV's show; only
      the counts are strings there instead of numbers. */
  lemma ExcelRowMatchesCsvRow(e: SectorCounts)
    ensures |ExcelSectorRow(e)| == |SectorRow(e)| == 6
    ensures forall j :: 0 <= j < 6 ==> Shown(ExcelSectorRow(e)[j]) == Shown(SectorRow(e)[j])
    ensures forall j :: 0 <= j < 6 ==> ExcelSectorRow(e)[j].Str?
    ensures forall j :: 1 <= j < 4 ==> SectorRow(e)[j].Num?
  {
  }

  // ------------------------------------------------------------------
  // PDF export

  datatype PdfReport = PdfReport(
    title: string,
    subtitle: string,
    summaryHead: Row,
    summaryBody: seq<Row>,
    sectorHead: Row,
    sectorBody: seq<Row>)

  /** The line under the title. Unlike the summary tables this one has no
      `|| ""`, so an unknown range reads "undefined". */
  function PdfSubtitle(date: string, timeRange: string): string {
    "Generated on " + date + " | Time Range: " + FindLabel(TimeRanges, timeRange).GetOr("undefined")
  }

  /** The PDF summary table body: the count and percentage rows, without
      the time range. */
  function PdfSummaryBody(stats: FeedbackStats): seq<Row> {
    [
      [Str("Total Feedbacks"), Num(stats.totalFeedbacks)],
      [Str("Positive Feedbacks"), Num(stats.totalPositive)],
      [Str("Negative Feedbacks"), Num(stats.totalNegative)],
      [Str("Positive Percentage"), PercentCell(PositivePercentage(Some(stats)))],
      [Str("Negative Percentage"), PercentCell(NegativePercentage(Some(stats)))]
    ]
  }

  /** `exportToPDF`: nothing while no statistics are loaded; `date` is the
      locale date string of the moment of export. */
  function ExportToPdf(stats: Option<FeedbackStats>, timeRange: string, date: string): (r: Option<PdfReport>)
    ensures r.None? <==> stats.None?
  {
    match stats
    case None => None
    case Some(s) =>
      Some(PdfReport(
        "Feedback Analytics Report",
        PdfSubtitle(date, timeRange),
        [Str("Metric"), Str("Value")],
        PdfSummaryBody(s),
        SectorHeader,
        SectorRows(s.sectorBreakdown)))
  }

  /** The PDF holds the CSV's rows: its summary body is the CSV's rows 2..6,
      its sector table the CSV's sector header and sector rows. */
  lemma PdfMatchesCsv(stats: FeedbackStats, timeRange: string, date: string)
    ensures var pdf := ExportToPdf(Some(stats), timeRange, date).value;
      var rows := CsvRows(stats, timeRange);
      && [pdf.summaryHead] + pdf.summaryBody == rows[..6]
      && pdf.sectorHead == rows[8]
      && pdf.sectorBody == rows[9..]
  {
    var pdf := ExportToPdf(Some(stats), timeRange, date).value;
    var rows := CsvRows(stats, timeRange);
    var bd := stats.sectorBreakdown;
    CsvLayout(stats, timeRange);
    assert [pdf.summaryHead] + pdf.summaryBody == rows[..6] by {
      assert |rows[..6]| == 6;
      assert pdf.summaryBody == PdfSummaryBody(stats);
    }
    assert rows[9..] == SectorRows(bd);
  }

  /** The PDF subtitle names the selected range, or "undefined" for a value
      outside the four. */
  lemma PdfSubtitleRange(date: string, timeRange: string)
    ensures timeRange == "7" ==> PdfSubtitle(date, timeRange) == "Generated on " + date + " | Time Range: Last 7 days"
    ensures timeRange == "30" ==> PdfSubtitle(date, timeRange) == "Generated on " + date + " | Time Range: Last 30 days"
    ensures timeRange == "90" ==> PdfSubtitle(date, timeRange) == "Generated on " + date + " | Time Range: Last 90 days"
    ensures timeRange == "all" ==> PdfSubtitle(date, timeRange) == "Generated on " + date + " | Time Range: All time"
    ensures timeRange != "7" && timeRange != "30" && timeRange != "90" && timeRange != "all"
            ==> PdfSubtitle(date, timeRange) == "Generated on " + date + " | Time Range: undefined"
  {
    TimeRangeLabels(timeRange);
  }
}
