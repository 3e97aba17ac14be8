/** The PDF report (`generate_report`): the recap rows of one date under a fixed
    12-column header. Only the logical cell sequence is modelled, not the rendering. */
module Report {
  import opened Strings
  import opened Store

  /** The report's columns, in header order. */
  datatype Column =
    | CustomerName | PoNumber | ShadeName
    | YarnBagsRequired | YarnBagsReceived | BalanceYarnBags
    | KnittingRequired | KnittingProcessed | BalanceKnitting
    | DyeingRequired | DyeingProcessed | BalanceDyeing

  const Columns: seq<Column> := [
    CustomerName, PoNumber, ShadeName,
    YarnBagsRequired, YarnBagsReceived, BalanceYarnBags,
    KnittingRequired, KnittingProcessed, BalanceKnitting,
    DyeingRequired, DyeingProcessed, BalanceDyeing]

  /** The header text naming a column. */
  function Title(c: Column): string
  {
    match c
    case CustomerName => "Customer Name"
    case PoNumber => "PO Number"
    case ShadeName => "Shade Name"
    case YarnBagsRequired => "Yarn Bags Required"
    case YarnBagsReceived => "Yarn Bags Received"
    case BalanceYarnBags => "Balance Yarn Bags"
    case KnittingRequired => "Knitting Required"
    case KnittingProcessed => "Processed Knitting"
    case BalanceKnitting => "Balance Knitting"
    case DyeingRequired => "Dyeing Required"
    case DyeingProcessed => "Processed Dyeing"
    case BalanceDyeing => "Balance Dyeing"
  }

  /** The recap field a column shows, as `str` writes it. */
  function Field(r: RecapRow, c: Column): string
  {
    match c
    case CustomerName => r.customerName
    case PoNumber => r.poNumber
    case ShadeName => r.shadeName
    case YarnBagsRequired => IntToString(r.yarnBagsRequired)
    case YarnBagsReceived => IntToString(r.yarnBagsReceived)
    case BalanceYarnBags => IntToString(r.balanceYarnBags)
    case KnittingRequired => IntToString(r.knittingRequired)
    case KnittingProcessed => IntToString(r.knittingProcessed)
    case BalanceKnitting => IntToString(r.balanceKnitting)
    case DyeingRequired => IntToString(r.dyeingRequired)
    case DyeingProcessed => IntToString(r.dyeingProcessed)
    case BalanceDyeing => IntToString(r.balanceDyeing)
  }

  /** `col_names`. */
  const ColumnNames: seq<string> := [
    "Customer Name", "PO Number", "Shade Name", "Yarn Bags Required", "Yarn Bags Received",
    "Balance Yarn Bags", "Knitting Required", "Processed Knitting", "Balance Knitting",
    "Dyeing Required", "Processed Dyeing", "Balance Dyeing"]

  /** `col_widths`. */
  const ColumnWidths: seq<int> := [30, 30, 30, 40, 40, 40, 40, 40, 40, 40, 40, 40]

  /** One bordered `pdf.cell(width, 10, text, 1)`. */
  datatype Cell = Cell(width: int, text: string)

  /** The cells of one data row, as the row loop writes them. */
  function RowCells(r: RecapRow): (cells: seq<Cell>)
    ensures |cells| == |ColumnWidths|
    ensures forall k :: 0 <= k < |cells| ==> cells[k].width == ColumnWidths[k]
  {
    [ Cell(30, r.customerName),
      Cell(30, r.poNumber),
      Cell(30, r.shadeName),
      Cell(40, IntToString(r.yarnBagsRequired)),
      Cell(40, IntToString(r.yarnBagsReceived)),
      Cell(40, IntToString(r.balanceYarnBags)),
      Cell(40, IntToString(r.knittingRequired)),
      Cell(40, IntToString(r.knittingProcessed)),
      Cell(40, IntToString(r.balanceKnitting)),
      Cell(40, IntToString(r.dyeingRequired)),
      Cell(40, IntToString(r.dyeingProcessed)),
      Cell(40, IntToString(r.balanceDyeing)) ]
  }

  /** The header: 12 names paired with 12 widths, and each data cell lies under the header cell
      of its own column: position k of the header names column k and position k of every
      data row shows that column's field. */
  lemma HeaderMatchesRows(r: RecapRow)
    ensures |ColumnNames| == |ColumnWidths| == |Columns| == 12
    ensures forall k :: 0 <= k < 12 ==> ColumnNames[k] == Title(Columns[k])
    ensures forall k :: 0 <= k < 12 ==> RowCells(r)[k] == Cell(ColumnWidths[k], Field(r, Columns[k]))
    ensures forall j, k :: 0 <= j < k < 12 ==> Columns[j] != Columns[k]
  {
  }

  /** The generated document: its title line, file name, header row and data rows. */
  datatype ReportDoc = ReportDoc(title: string, fileName: string, header: seq<Cell>, rows: seq<seq<Cell>>)

  /** The report for a date: a header, then one row per recap of that date, in the order the query lists them. */
  function BuildReport(recaps: seq<RecapRow>, date: string): (doc: ReportDoc)
    ensures |doc.header| == 12
    ensures forall k :: 0 <= k < 12 ==> doc.header[k] == Cell(ColumnWidths[k], ColumnNames[k])
    ensures forall k :: 0 <= k < |doc.rows| ==> |doc.rows[k]| == 12
  {
    var matched := WithDate(recaps, date);
    ReportDoc("Daily Recap - " + date, "daily_recap_" + date + ".pdf",
              seq(12, k requires 0 <= k < 12 => Cell(ColumnWidths[k], ColumnNames[k])),
              seq(|matched|, k requires 0 <= k < |matched| => RowCells(matched[k])))
  }

  /** The report's rows are exactly the rows of the recaps with that date: one per such recap
      (counted by index, so identical recaps give identical rows), and nothing else. */
  lemma ReportRowsAreMatches(recaps: seq<RecapRow>, date: string)
    ensures |BuildReport(recaps, date).rows| == |set i | 0 <= i < |recaps| && recaps[i].date == date|
    ensures forall r :: r in recaps && r.date == date ==> RowCells(r) in BuildReport(recaps, date).rows
    ensures forall cells :: cells in BuildReport(recaps, date).rows ==>
              exists r :: r in recaps && r.date == date && cells == RowCells(r)
  {
    WithDateCount(recaps, date);
    WithDateMembers(recaps, date);
    var matched := WithDate(recaps, date);
    var rows := BuildReport(recaps, date).rows;
    forall r | r in recaps && r.date == date ensures RowCells(r) in rows {
      var k :| 0 <= k < |matched| && matched[k] == r;
      assert rows[k] == RowCells(r);
    }
    forall cells | cells in rows ensures exists r :: r in recaps && r.date == date && cells == RowCells(r) {
      var k :| 0 <= k < |rows| && rows[k] == cells;
      assert matched[k] in matched;
    }
  }

  /** A date with no recap gives a header-only table. */
  lemma EmptyReport(recaps: seq<RecapRow>, date: string)
    requires forall k :: 0 <= k < |recaps| ==> recaps[k].date != date
    ensures BuildReport(recaps, date).rows == []
  {
    WithDateNone(recaps, date);
  }

  /** Appending a recap adds its row at the end of its own date's report and leaves every other
      date's report as it was. */
  lemma ReportAfterAppend(recaps: seq<RecapRow>, r: RecapRow, date: string)
    ensures BuildReport(recaps + [r], date).rows
            == BuildReport(recaps, date).rows + (if r.date == date then [RowCells(r)] else [])
  {
    WithDateConcat(recaps, [r], date);
    assert WithDate([r], date) == WithDate([], date) + (if r.date == date then [r] else []);
  }

  /** `generate_report`: read the recaps of the date and, when "Download PDF Report" is pressed,
      write the header cells and then every row's cells. */
  method GenerateReport(db: Database, date: string, download: bool) returns (doc: Option<ReportDoc>)
    ensures doc == if download then Some(BuildReport(db.recaps, date)) else None
  {
    var reportData := db.SelectRecapsByDate(date);
    if !download {
      return None;
    }
    var header: seq<Cell> := [];
    for k := 0 to 12
      invariant header == seq(k, j requires 0 <= j < k => Cell(ColumnWidths[j], ColumnNames[j]))
    {
      header := header + [Cell(ColumnWidths[k], ColumnNames[k])];
    }
    var rows: seq<seq<Cell>> := [];
    for i := 0 to |reportData|
      invariant rows == seq(i, j requires 0 <= j < i => RowCells(reportData[j]))
    {
      rows := rows + [RowCells(reportData[i])];
    }
    doc := Some(ReportDoc("Daily Recap - " + date, "daily_recap_" + date + ".pdf", header, rows));
  }
}
