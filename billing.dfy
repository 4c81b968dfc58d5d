// The billing projection `getBillingInfo` (App.tsx): the sheets over the
// whole history, charged at 50 cents a sheet, due on the first day of the
// next month, never marked paid. The current date is a parameter.
module Billing {
  import opened Types

  /** `COST_PER_SHEET`, 0.50 dollars, in cents. */
  const CentsPerSheet: nat := 50

  /** `history.reduce((acc, h) => acc + (h.sheetsCount || 0), 0)`, a left
      fold in which a missing count reads as 0. */
  function SheetsTotal(history: seq<HistoryItem>): nat {
    if |history| == 0 then 0
    else SheetsTotal(history[..|history| - 1]) + CountOrZero(history[|history| - 1].sheetsCount)
  }

  predicate ValidDate(d: CalendarDate) {
    1 <= d.month <= 12
  }

  /** Months since the start of year 0, so consecutive months differ by 1. */
  function MonthIndex(d: CalendarDate): int {
    d.year * 12 + (d.month - 1)
  }

  /** The day set to 1, then the month advanced by one, December rolling
      over into January of the next year. */
  function NextDueDate(today: CalendarDate): (due: CalendarDate)
    requires ValidDate(today)
    ensures ValidDate(due) && due.day == 1
    ensures MonthIndex(due) == MonthIndex(today) + 1
  {
    if today.month == 12 then CalendarDate(today.year + 1, 1, 1)
    else CalendarDate(today.year, today.month + 1, 1)
  }

  /** `getBillingInfo`. */
  function GetBillingInfo(history: seq<HistoryItem>, today: CalendarDate): BillingInfo
    requires ValidDate(today)
  {
    var sheets := SheetsTotal(history);
    BillingInfo(sheets * CentsPerSheet, NextDueDate(today), false, sheets)
  }

  /** The fold splits over concatenation. */
  lemma {:induction false} SheetsTotalAppend(a: seq<HistoryItem>, b: seq<HistoryItem>)
    ensures SheetsTotal(a + b) == SheetsTotal(a) + SheetsTotal(b)
  {
    if |b| > 0 {
      var b' := b[..|b| - 1];
      SheetsTotalAppend(a, b');
      assert (a + b)[..|a + b| - 1] == a + b';
      assert (a + b)[|a + b| - 1] == b[|b| - 1];
    } else {
      assert a + b == a;
    }
  }

  /** The total does not depend on the order of the history. */
  lemma SheetsTotalOrderFree(a: seq<HistoryItem>, b: seq<HistoryItem>)
    ensures SheetsTotal(a + b) == SheetsTotal(b + a)
  {
    SheetsTotalAppend(a, b);
    SheetsTotalAppend(b, a);
  }

  /** Prepending a record adds its count. */
  lemma SheetsTotalPrepend(item: HistoryItem, history: seq<HistoryItem>)
    ensures SheetsTotal([item] + history) == CountOrZero(item.sheetsCount) + SheetsTotal(history)
  {
    SheetsTotalAppend([item], history);
    assert [item][..0] == [];
  }

  /** The total is zero exactly when every record's count is missing or 0. */
  lemma {:induction false} SheetsTotalZero(history: seq<HistoryItem>)
    ensures SheetsTotal(history) == 0 <==>
      forall k :: 0 <= k < |history| ==> CountOrZero(history[k].sheetsCount) == 0
  {
    if |history| > 0 {
      var front := history[..|history| - 1];
      SheetsTotalZero(front);
      assert forall k :: 0 <= k < |front| ==> front[k] == history[k];
    }
  }

  /** The projection: sheets is the folded total, the charge is 50 cents per
      sheet, nothing is paid, and the due date is the first of the next
      month. */
  lemma BillingProjection(history: seq<HistoryItem>, today: CalendarDate)
    requires ValidDate(today)
    ensures var b := GetBillingInfo(history, today);
      && b.sheetsEvaluatedThisMonth == SheetsTotal(history)
      && b.pendingCents == CentsPerSheet * SheetsTotal(history)
      && !b.isPaid
      && ValidDate(b.dueDate) && b.dueDate.day == 1
      && MonthIndex(b.dueDate) == MonthIndex(today) + 1
  {
  }

  /** An empty history bills nothing. */
  lemma EmptyHistoryBillsNothing(today: CalendarDate)
    requires ValidDate(today)
    ensures GetBillingInfo([], today).pendingCents == 0
    ensures GetBillingInfo([], today).sheetsEvaluatedThisMonth == 0
  {
  }

  /** One record of ten sheets bills five dollars. */
  lemma TenSheetsBillFiveDollars(item: HistoryItem, today: CalendarDate)
    requires ValidDate(today) && item.sheetsCount == Some(10)
    ensures GetBillingInfo([item], today).pendingCents == 500
  {
    assert [item][..0] == [];
    assert SheetsTotal([item]) == SheetsTotal([]) + 10;
  }
}
