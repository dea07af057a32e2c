/**
 * The transaction history page: the search-by-day filter, the current month's
 * rows, the month's total profit and count, and the relative date labels.
 *
 * Instants are `createdAt` values in milliseconds. What JavaScript's `Date`
 * makes of an instant (its UTC day, its local month and year) depends on the
 * time zone and the calendar, so the page's view of it is a Calendar value
 * passed in; the current time is a parameter too.
 */
module TransactionHistory {
  import opened Wrappers
  import opened Schema
  import opened Sequences
  import Decimal

  /**
   * The calendar as the browser sees it: `isoDay(ms)` is
   * `new Date(ms).toISOString().split('T')[0]`, the UTC day as "YYYY-MM-DD";
   * `month(ms)` and `year(ms)` are `getMonth()` and `getFullYear()` in local
   * time.
   */
  datatype Calendar = Calendar(isoDay: int -> string, month: int -> int, year: int -> int)

  // ---------------------------------------------------------------------
  // Filters
  // ---------------------------------------------------------------------

  /** The row was created on the searched day, or no day is searched. */
  predicate MatchesSearch(cal: Calendar, searchDate: string, t: Transaction) {
    searchDate == "" || cal.isoDay(t.createdAt) == searchDate
  }

  /**
   * `filteredTransactions`: with an empty search every row in its order;
   * otherwise the rows created on the searched day, in their order.
   */
  function FilteredTransactions(ts: seq<Transaction>, cal: Calendar, searchDate: string): (r: seq<Transaction>)
    ensures searchDate == "" ==> r == ts
    ensures forall i :: 0 <= i < |r| ==> cal.isoDay(r[i].createdAt) == searchDate || searchDate == ""
    ensures forall t :: multiset(r)[t] == if MatchesSearch(cal, searchDate, t) then multiset(ts)[t] else 0
    ensures SubsequenceOf(r, ts)
  {
    var keep := t => MatchesSearch(cal, searchDate, t);
    FilterIsSubsequence(ts, keep);
    if searchDate == "" then
      FilterKeepsAll(ts, keep);
      Filter(ts, keep)
    else
      Filter(ts, keep)
  }

  /** The row falls in the month and year of the instant `now`. */
  predicate InMonthOf(cal: Calendar, now: int, t: Transaction) {
    cal.month(t.createdAt) == cal.month(now) && cal.year(t.createdAt) == cal.year(now)
  }

  /** `monthlyTransactions`: the rows of the current month, in their order. */
  function MonthlyTransactions(ts: seq<Transaction>, cal: Calendar, now: int): (r: seq<Transaction>)
    ensures forall i :: 0 <= i < |r| ==> InMonthOf(cal, now, r[i])
    ensures forall t :: multiset(r)[t] == if InMonthOf(cal, now, t) then multiset(ts)[t] else 0
    ensures SubsequenceOf(r, ts)
  {
    var keep := t => InMonthOf(cal, now, t);
    FilterIsSubsequence(ts, keep);
    Filter(ts, keep)
  }

  /** The count shown under "This Month" is the number of rows of the current month. */
  lemma MonthlyCount(ts: seq<Transaction>, cal: Calendar, now: int)
    ensures |MonthlyTransactions(ts, cal, now)| == Count(ts, t => InMonthOf(cal, now, t))
    ensures |MonthlyTransactions(ts, cal, now)| <= |ts|
  {
    FilterLength(ts, t => InMonthOf(cal, now, t));
  }

  // ---------------------------------------------------------------------
  // Monthly profit
  // ---------------------------------------------------------------------

  /** `t.type === "credit" && t.profit`: a credit row whose profit is set and not zero. */
  predicate CountsTowardProfit(t: Transaction) {
    t.txType == CreditText && t.profit.Some? && t.profit.value != 0.0
  }

  /** `t.profit || 0`. */
  function ProfitOrZero(t: Transaction): real {
    t.profit.GetOr(0.0)
  }

  /** `reduce((sum, t) => sum + (t.profit || 0), acc)`, a left fold. */
  function SumProfits(ts: seq<Transaction>, acc: real): real
    decreases |ts|
  {
    if ts == [] then acc else SumProfits(ts[1..], acc + ProfitOrZero(ts[0]))
  }

  /** `totalProfit` of a list of rows (the page applies it to the month's rows). */
  function TotalProfit(ts: seq<Transaction>): (r: real)
    ensures ts == [] ==> r == 0.0
  {
    SumProfits(Filter(ts, CountsTowardProfit), 0.0)
  }

  /** The reference sum: every credit row's profit, a missing one counting 0, and nothing for other rows. */
  function CreditProfit(ts: seq<Transaction>): real
    decreases |ts|
  {
    if ts == [] then 0.0
    else (if ts[0].txType == CreditText then ts[0].profit.GetOr(0.0) else 0.0) + CreditProfit(ts[1..])
  }

  /** The fold's starting value is added once to the sum. */
  lemma {:induction false} SumProfitsFrom(ts: seq<Transaction>, acc: real)
    ensures SumProfits(ts, acc) == acc + SumProfits(ts, 0.0)
    decreases |ts|
  {
    if ts != [] {
      SumProfitsFrom(ts[1..], acc + ProfitOrZero(ts[0]));
      SumProfitsFrom(ts[1..], ProfitOrZero(ts[0]));
    }
  }

  /**
   * The total is the sum of the credit rows' profits: the rows that the
   * filter drops (debit rows, and credit rows with no or zero profit) would
   * have added nothing.
   */
  lemma {:induction false} TotalProfitIsCreditSum(ts: seq<Transaction>)
    ensures TotalProfit(ts) == CreditProfit(ts)
    decreases |ts|
  {
    if ts != [] {
      TotalProfitIsCreditSum(ts[1..]);
      var t := ts[0];
      assert ts == [t] + ts[1..];
      FilterAppend([t], ts[1..], CountsTowardProfit);
      var rest := Filter(ts[1..], CountsTowardProfit);
      if CountsTowardProfit(t) {
        assert Filter([t], CountsTowardProfit) == [t];
        assert ([t] + rest)[1..] == rest;
        SumProfitsFrom(rest, ProfitOrZero(t));
      } else {
        assert Filter([t], CountsTowardProfit) == [];
        assert [] + rest == rest;
      }
    }
  }

  /** The reference sum of two lists joined is the sum of their sums. */
  lemma {:induction false} CreditProfitAppend(a: seq<Transaction>, b: seq<Transaction>)
    ensures CreditProfit(a + b) == CreditProfit(a) + CreditProfit(b)
    decreases |a|
  {
    if a == [] {
      assert a + b == b;
    } else {
      assert (a + b)[1..] == a[1..] + b;
      CreditProfitAppend(a[1..], b);
    }
  }

  /** The total of two lists joined is the sum of their totals. */
  lemma TotalProfitAppend(a: seq<Transaction>, b: seq<Transaction>)
    ensures TotalProfit(a + b) == TotalProfit(a) + TotalProfit(b)
  {
    TotalProfitIsCreditSum(a + b);
    TotalProfitIsCreditSum(a);
    TotalProfitIsCreditSum(b);
    CreditProfitAppend(a, b);
  }

  /** A row that is not a credit adds nothing to the total, wherever it stands. */
  lemma DebitRowAddsNothing(a: seq<Transaction>, t: Transaction, b: seq<Transaction>)
    requires t.txType != CreditText
    ensures TotalProfit(a + [t] + b) == TotalProfit(a + b)
  {
    TotalProfitAppend(a + [t], b);
    TotalProfitAppend(a, [t]);
    TotalProfitAppend(a, b);
    assert Filter([t], CountsTowardProfit) == [];
  }

  // ---------------------------------------------------------------------
  // Relative dates
  // ---------------------------------------------------------------------

  /** `1000 * 60 * 60 * 24`. */
  const MsPerDay: int := 1000 * 60 * 60 * 24

  /** `Math.floor((now - created) / MsPerDay)`: whole days elapsed, rounded down (negative for a future instant). */
  function DiffDays(now: int, created: int): (d: int)
    ensures MsPerDay * d <= now - created < MsPerDay * d + MsPerDay
  {
    (now - created) / MsPerDay
  }

  /** The cases of `formatDate`'s cascade. */
  datatype Bucket = Today | Yesterday | DaysAgo(days: int) | WeeksAgo(weeks: int)

  /** `formatDate`'s choice of label for a number of elapsed days. */
  function BucketOf(diffDays: int): (b: Bucket)
    ensures b == Today <==> diffDays == 0
    ensures b == Yesterday <==> diffDays == 1
    ensures b.DaysAgo? <==> diffDays < 7 && diffDays != 0 && diffDays != 1
    ensures b.DaysAgo? ==> b.days == diffDays
    ensures b.WeeksAgo? <==> diffDays >= 7
    ensures b.WeeksAgo? ==> b.weeks >= 1 && 7 * b.weeks <= diffDays < 7 * b.weeks + 7
  {
    if diffDays == 0 then Today
    else if diffDays == 1 then Yesterday
    else if diffDays < 7 then DaysAgo(diffDays)
    else WeeksAgo(diffDays / 7)
  }

  /**
   * The day part of the label, before the comma and the time of day. A
   * "days ago" label is the day count, read back from its digits (after a
   * minus sign for an instant in the future), followed by " days ago".
   */
  function DayLabel(b: Bucket): (s: string)
    ensures b == Today ==> s == "Today"
    ensures b == Yesterday ==> s == "Yesterday"
    ensures b.DaysAgo? && b.days >= 0 ==>
      var k := |s| - |" days ago"|;
      && k >= 1 && s[k..] == " days ago"
      && (forall i :: 0 <= i < k ==> Decimal.IsDigit(s[i]))
      && Decimal.ParseNat(s[..k]) == b.days
      && (k > 1 ==> s[0] != '0')
    ensures b.DaysAgo? && b.days < 0 ==>
      var k := |s| - |" days ago"|;
      && k >= 2 && s[0] == '-' && s[k..] == " days ago"
      && (forall i :: 1 <= i < k ==> Decimal.IsDigit(s[i]))
      && Decimal.ParseNat(s[1..k]) == -b.days
      && s[1] != '0'
    ensures b.WeeksAgo? ==> |s| >= 4 && s[|s| - 4..] == " ago"
  {
    match b
    case Today => "Today"
    case Yesterday => "Yesterday"
    case DaysAgo(n) =>
      DaysLabelReadsBack(n);
      Decimal.IntToString(n) + " days ago"
    case WeeksAgo(w) => Decimal.IntToString(w) + " week" + (if w > 1 then "s" else "") + " ago"
  }

  /** The count in front of " days ago" reads back as the number of days and has no leading zero. */
  lemma DaysLabelReadsBack(n: int)
    ensures var s := Decimal.IntToString(n) + " days ago";
      var k := |s| - |" days ago"|;
      && k == |Decimal.IntToString(n)| && s[k..] == " days ago" && s[..k] == Decimal.IntToString(n)
      && (n >= 0 ==> k >= 1 && (forall i :: 0 <= i < k ==> Decimal.IsDigit(s[i])) && Decimal.ParseNat(s[..k]) == n
                     && (k > 1 ==> s[0] != '0'))
      && (n < 0 ==> k >= 2 && s[0] == '-' && (forall i :: 1 <= i < k ==> Decimal.IsDigit(s[i]))
                    && s[1..k] == Decimal.IntToString(n)[1..] && Decimal.ParseNat(s[1..k]) == -n
                    && s[1] != '0')
  {
    var digits := Decimal.IntToString(n);
    var s := digits + " days ago";
    assert s[..|digits|] == digits;
    assert s[|digits|..] == " days ago";
    assert s[0] == digits[0];
    if n < 0 {
      assert s[1] == digits[1];
      assert s[1..|digits|] == digits[1..];
    }
  }

  /**
   * `formatDate`: the day label, a comma, and `time`, the locale's rendering
   * of the time of day.
   */
  function FormatDate(now: int, created: int, time: string): (s: string)
    ensures DiffDays(now, created) == 0 ==> s == "Today, " + time
    ensures DiffDays(now, created) == 1 ==> s == "Yesterday, " + time
  {
    DayLabel(BucketOf(DiffDays(now, created))) + ", " + time
  }

  /**
   * A week label is the count of weeks, which reads back as that count, then
   * " week ago" for one week and " weeks ago" for more.
   */
  lemma WeekLabelCount(w: int)
    requires w >= 1
    ensures var s := DayLabel(WeeksAgo(w));
      var digits := Decimal.NatToString(w);
      && s[..|digits|] == digits
      && s[|digits|..] == (if w > 1 then " weeks ago" else " week ago")
      && (forall i :: 0 <= i < |digits| ==> Decimal.IsDigit(digits[i]))
      && Decimal.ParseNat(digits) == w
  {
    Decimal.ParseRendered(w);
    var digits := Decimal.NatToString(w);
    var s := DayLabel(WeeksAgo(w));
    assert s == digits + (if w > 1 then " weeks ago" else " week ago");
    assert s[..|digits|] == digits;
  }

  /** A week label ends in "weeks ago" exactly when the count of weeks is above one. */
  lemma WeekLabelPlural(w: int)
    requires w >= 1
    ensures var s := DayLabel(WeeksAgo(w));
      |s| >= 5 && (s[|s| - 5] == 's' <==> w > 1)
  {
    WeekLabelCount(w);
    Decimal.RenderingShape(w);
  }

  /** An instant a whole number of weeks and some days old is labelled with that number of weeks. */
  lemma WeeksLabel(now: int, created: int, w: int)
    requires w >= 1 && MsPerDay * 7 * w <= now - created < MsPerDay * 7 * (w + 1)
    ensures BucketOf(DiffDays(now, created)) == WeeksAgo(w)
  {
    var d := DiffDays(now, created);
    assert 7 * w <= d by {
      assert MsPerDay * (7 * w) <= now - created < MsPerDay * d + MsPerDay;
    }
    assert d < 7 * w + 7 by {
      assert MsPerDay * d <= now - created < MsPerDay * (7 * w + 7);
    }
  }
}
