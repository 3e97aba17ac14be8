/** One execution of the app script: `create_tables()` runs first, and then the page
    chosen in the sidebar. */
module App {
  import opened Strings
  import opened Store
  import opened Orders
  import opened Recaps
  import opened Report

  /** The sidebar choice together with what was entered on that page. */
  datatype Page =
    | AddCustomerPage(name: string, poNumber: string, fabric: string, gsm: string, yarnDetail: string,
                      reqWidth: string, numShades: int, inputs: seq<ShadeInput>, submit: bool)
    | DailyRecapPage(date: string, selection: string, pressed: Option<nat>, entry: RecapEntry)
    | GenerateReportPage(date: string, download: bool)

  datatype RunResult =
    | AddResult(add: AddOutcome)
    | RecapPageResult(recap: RecapOutcome)
    | ReportResult(doc: Option<ReportDoc>)

  /** The script body. Because the customers table is dropped at the start of every execution,
      an order is never seen by a later execution: adding always succeeds and leaves just that
      order, the recap page always finds no customers, and recaps and reports only ever see
      the recap table, which is kept. */
  method Run(db: Database, page: Page) returns (result: RunResult)
    requires db.Valid()
    requires page.AddCustomerPage? ==> page.numShades >= 1 && |page.inputs| == page.numShades
    modifies db
    ensures db.Valid()
    ensures db.recaps == old(db.recaps)
    ensures page.AddCustomerPage? ==>
              && result == AddResult(if page.submit then CustomerAdded else NotSubmitted)
              && db.customers == if page.submit
                                 then [OrderRow(page.name, page.poNumber, page.fabric, page.gsm, page.yarnDetail,
                                                page.reqWidth, page.numShades, page.inputs)]
                                 else []
    ensures page.DailyRecapPage? ==> result == RecapPageResult(NoCustomers) && db.customers == []
    ensures page.GenerateReportPage? ==>
              && result == ReportResult(if page.download then Some(BuildReport(old(db.recaps), page.date)) else None)
              && db.customers == []
  {
    db.CreateTables();
    match page
    case AddCustomerPage(name, poNumber, fabric, gsm, yarnDetail, reqWidth, numShades, inputs, submit) =>
      var outcome := AddCustomer(db, name, poNumber, fabric, gsm, yarnDetail, reqWidth, numShades, inputs, submit);
      result := AddResult(outcome);
    case DailyRecapPage(date, selection, pressed, entry) =>
      var outcome := DailyRecap(db, date, selection, pressed, entry);
      result := RecapPageResult(outcome);
    case GenerateReportPage(date, download) =>
      var doc := GenerateReport(db, date, download);
      result := ReportResult(doc);
  }
}
