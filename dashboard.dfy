// The metrics the dashboard derives from its `history` and `billing` props
// (components/Dashboard.tsx): the evaluation count, the average performance,
// the billing banner, the pass styling of each record and the choice between
// the records table and the empty-state placeholder.
module Dashboard {
  import opened Types
  import opened Billing

  /** A score at or above this percentage is styled as passing. */
  const PassThreshold: real := 40.0

  /** `history?.length || 0`. */
  function EvaluationsCount(history: Option<seq<HistoryItem>>): nat {
    if history.Some? then |history.value| else 0
  }

  /** `history.reduce((acc, h) => acc + h.report.percentage, 0)`. */
  function SumPercentages(history: seq<HistoryItem>): real {
    if |history| == 0 then 0.0
    else SumPercentages(history[..|history| - 1]) + history[|history| - 1].report.percentage
  }

  /** The mean percentage, or exactly 0 for an empty history. */
  function AveragePerformance(history: seq<HistoryItem>): real {
    if |history| > 0 then SumPercentages(history) / (|history| as real) else 0.0
  }

  /** The banner shows while money is pending and unpaid. */
  predicate ShowBillingBanner(billing: BillingInfo) {
    billing.pendingCents > 0 && !billing.isPaid
  }

  /** The score styling of one record. */
  predicate IsPassing(item: HistoryItem) {
    item.report.percentage >= PassThreshold
  }

  /** What one table row shows. */
  datatype Row = Row(
    id: string,
    studentName: string,
    subject: string,
    timestamp: int,
    percentage: real,
    passing: bool,
    pages: Option<nat>)

  /** The records panel: a placeholder, or a table of rows. */
  datatype RecordsView = EmptyState | Table(rows: seq<Row>)

  function RowOf(item: HistoryItem): Row {
    Row(item.id, item.report.studentInfo.name, item.report.studentInfo.subject,
        item.timestamp, item.report.percentage, IsPassing(item), item.sheetsCount)
  }

  function Records(history: seq<HistoryItem>): RecordsView {
    if |history| == 0 then EmptyState
    else Table(seq(|history|, k requires 0 <= k < |history| => RowOf(history[k])))
  }

  /** One row per record, in history order, and the placeholder exactly when
      there is no record; so the count equals the number of rows shown. */
  lemma RecordsOneRowPerItem(history: seq<HistoryItem>)
    ensures Records(history).EmptyState? <==> |history| == 0
    ensures Records(history).Table? ==>
      && |Records(history).rows| == |history| == EvaluationsCount(Some(history))
      && forall k :: 0 <= k < |history| ==>
           Records(history).rows[k].id == history[k].id &&
           (Records(history).rows[k].passing <==> history[k].report.percentage >= 40.0)
  {
  }

  /** The count is the history's length, and 0 when there is no history. */
  lemma EvaluationsCountSpec(history: Option<seq<HistoryItem>>)
    ensures EvaluationsCount(history) == 0 <==> history.None? || history.value == []
    ensures history.Some? ==> EvaluationsCount(history) == |history.value|
  {
  }

  lemma {:induction false} SumPercentagesBounded(history: seq<HistoryItem>, lo: real, hi: real)
    requires forall k :: 0 <= k < |history| ==> lo <= history[k].report.percentage <= hi
    ensures lo * (|history| as real) <= SumPercentages(history) <= hi * (|history| as real)
  {
    if |history| > 0 {
      var front := history[..|history| - 1];
      SumPercentagesBounded(front, lo, hi);
      assert (|history| as real) == (|front| as real) + 1.0;
    }
  }

  /** The percentage sum splits over concatenation. */
  lemma {:induction false} SumPercentagesAppend(a: seq<HistoryItem>, b: seq<HistoryItem>)
    ensures SumPercentages(a + b) == SumPercentages(a) + SumPercentages(b)
  {
    if |b| > 0 {
      var b' := b[..|b| - 1];
      SumPercentagesAppend(a, b');
      assert (a + b)[..|a + b| - 1] == a + b';
      assert (a + b)[|a + b| - 1] == b[|b| - 1];
    } else {
      assert a + b == a;
    }
  }

  /** A non-empty history's average times its length is the sum of all its
      percentages: every record weighs the same. */
  lemma AverageIsMean(history: seq<HistoryItem>)
    requires |history| > 0
    ensures AveragePerformance(history) * (|history| as real) == SumPercentages(history)
  {
  }

  /** The average does not depend on the order of the history. */
  lemma AverageOrderFree(a: seq<HistoryItem>, b: seq<HistoryItem>)
    ensures AveragePerformance(a + b) == AveragePerformance(b + a)
  {
    SumPercentagesAppend(a, b);
    SumPercentagesAppend(b, a);
  }

  /** When every percentage lies in `[lo, hi]`, so does the average; with
      reconciled reports that keeps the average within 0 to 100. */
  lemma AverageBounded(history: seq<HistoryItem>, lo: real, hi: real)
    requires |history| > 0
    requires forall k :: 0 <= k < |history| ==> lo <= history[k].report.percentage <= hi
    ensures lo <= AveragePerformance(history) <= hi
  {
    SumPercentagesBounded(history, lo, hi);
    var n := |history| as real;
    var avg := SumPercentages(history) / n;
    assert avg * n == SumPercentages(history);
    MeanBetween(lo, hi, avg, n);
  }

  lemma MeanBetween(lo: real, hi: real, avg: real, n: real)
    requires n > 0.0 && lo * n <= avg * n <= hi * n
    ensures lo <= avg <= hi
  {
  }

  /** An empty history averages exactly 0, never a division by zero. */
  lemma EmptyAverageIsZero()
    ensures AveragePerformance([]) == 0.0
  {
  }

  /** With the application's billing projection the banner shows exactly when
      some record counts at least one sheet. */
  lemma {:induction false} BannerIffSheetsBilled(history: seq<HistoryItem>, today: CalendarDate)
    requires ValidDate(today)
    ensures ShowBillingBanner(GetBillingInfo(history, today)) <==>
      exists k :: 0 <= k < |history| && CountOrZero(history[k].sheetsCount) > 0
  {
    SheetsTotalZero(history);
  }
}
