/**
 * The three report screens: each reads the period's transactions and the
 * categories from the store and assembles the report and its keyboard. The
 * store is only read.
 */
module ReportScreens {
  import opened Wrappers
  import opened Models
  import opened Store
  import opened Reports
  import opened Navigation

  /** The categories as `GetAllCategories` returns them. */
  function ReadCategories(rows: seq<CategoryRow>): (cs: seq<Category>)
    ensures |cs| == |rows|
    ensures forall i :: 0 <= i < |rows| ==> cs[i] == ReadCategory(rows[i])
  {
    seq(|rows|, i requires 0 <= i < |rows| => ReadCategory(rows[i]))
  }

  /** A `new DateTime(year, month, 1)` or `AddMonths` that would throw. */
  datatype PeriodError = InvalidPeriod

  /** What a report screen shows: the no-data notice, or the report and its keyboard. */
  datatype Screen = NoDataNotice | ReportScreen(report: Report, keyboard: Keyboard)

  /** The transactions a screen reports on. */
  function PeriodTransactions(rows: seq<TransactionRow>, w: Window): seq<Transaction>
  {
    ReadTransactions(Selected(rows, Some(w.start), Some(w.end)))
  }

  /**
   * GenerateReport: an invalid month is an error; otherwise the summary of the
   * transactions in the report period with unknown categories named "", and
   * the summary keyboard, or the notice when the period is empty.
   */
  method GenerateReport(store: BudgetStore, year: Option<int>, month: Option<int>, now: DateTime)
    returns (r: Result<Screen, PeriodError>)
    requires store.Valid() && ValidDate(now)
    ensures r.Err? <==> ReportPeriod(year, month, now).None?
    ensures r.Ok? ==>
              var report := BuildReport(PeriodTransactions(store.transactions, ReportPeriod(year, month, now).value),
                                        ReadCategories(store.categories), "");
              r.value == if report.NoData? then NoDataNotice else ReportScreen(report, ReportKeyboard(year, month, now))
  {
    var period := ReportPeriod(year, month, now);
    if period.None? {
      return Err(InvalidPeriod);
    }
    var w := period.value;
    var transactions := store.GetTransactions(Some(w.start), Some(w.end));
    var categories := store.GetAllCategories();
    assert categories == ReadCategories(store.categories);
    if transactions == [] {
      return Ok(NoDataNotice);
    }
    var report := BuildReport(transactions, categories, "");
    r := Ok(ReportScreen(report, ReportKeyboard(year, month, now)));
  }

  /**
   * GenerateDetailedReport: as GenerateReport, with the keyboard of one button
   * per category row instead.
   */
  method GenerateDetailedReport(store: BudgetStore, year: Option<int>, month: Option<int>, now: DateTime)
    returns (r: Result<Screen, PeriodError>)
    requires store.Valid() && ValidDate(now)
    ensures r.Err? <==> ReportPeriod(year, month, now).None?
    ensures r.Ok? ==>
              var report := BuildReport(PeriodTransactions(store.transactions, ReportPeriod(year, month, now).value),
                                        ReadCategories(store.categories), "");
              var y := if year.Some? then year.value else now.year;
              var m := if month.Some? then month.value else now.month;
              r.value == if report.NoData? then NoDataNotice
                         else ReportScreen(report, DetailedKeyboard(report.income, report.expense, y, m))
  {
    var period := ReportPeriod(year, month, now);
    if period.None? {
      return Err(InvalidPeriod);
    }
    var w := period.value;
    var transactions := store.GetTransactions(Some(w.start), Some(w.end));
    var categories := store.GetAllCategories();
    assert categories == ReadCategories(store.categories);
    if transactions == [] {
      return Ok(NoDataNotice);
    }
    var report := BuildReport(transactions, categories, "");
    var keyboard := CreateDetailedReportKeyboard(report.income, report.expense, year, month, now);
    r := Ok(ReportScreen(report, keyboard));
  }

  /** The breakdown screen: the keyboard is shown only with a breakdown. */
  datatype DetailsScreen = DetailsScreen(details: Details, keyboard: Option<Keyboard>)

  /**
   * ShowCategoryDetails: an invalid month is an error; otherwise the breakdown
   * of the category's transactions in that month's window, with the category
   * looked up by id (absent when no category has it).
   */
  method ShowCategoryDetails(store: BudgetStore, year: int, month: int, categoryId: int)
    returns (r: Result<DetailsScreen, PeriodError>)
    requires store.Valid()
    ensures r.Err? <==> MonthWindow(year, month).None?
    ensures r.Ok? ==>
              var w := MonthWindow(year, month).value;
              var txs := ReadTransactions(SelectedOfCategory(store.transactions, categoryId, Some(w.start), Some(w.end)));
              && r.value.details == BuildDetails(txs, ReadOption(FindById(store.categories, categoryId)))
              && (r.value.keyboard.Some? <==> txs != [])
              && (r.value.keyboard.Some? ==> r.value.keyboard.value == DetailsKeyboard(year, month))
  {
    var window := MonthWindow(year, month);
    if window.None? {
      return Err(InvalidPeriod);
    }
    var w := window.value;
    var transactions := store.GetTransactionsByCategoryAndPeriod(categoryId, Some(w.start), Some(w.end));
    var category := store.GetCategoryById(categoryId);
    var details := BuildDetails(transactions, category);
    if transactions == [] {
      return Ok(DetailsScreen(details, None));
    }
    r := Ok(DetailsScreen(details, Some(DetailsKeyboard(year, month))));
  }
}
