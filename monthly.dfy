/**
 * What a month bucket should hold, whatever reducer builds it: the sum of
 * the amounts of the rows whose month key is that month. The month key
 * itself (`toISOString().slice(0, 7)`, `toLocaleDateString`) is abstract: a
 * function from a row to a month index that orders like the calendar.
 */
module Monthly {
  import opened Sums

  /** The sum of the amounts of the rows that fall in month `m`. */
  function MonthTotal<T>(rows: seq<T>, month: T -> int, amount: T -> real, m: int): real {
    if |rows| == 0 then 0.0
    else MonthTotal(rows[..|rows| - 1], month, amount, m)
         + (if month(rows[|rows| - 1]) == m then amount(rows[|rows| - 1]) else 0.0)
  }

  function MonthsOf<T(==)>(rows: seq<T>, month: T -> int): set<int> {
    set r | r in rows :: month(r)
  }

  ghost predicate Distinct(months: seq<int>) {
    forall i, j :: 0 <= i < j < |months| ==> months[i] != months[j]
  }

  /** The month totals, added up over a list of months. */
  function TotalsOver<T>(months: seq<int>, rows: seq<T>, month: T -> int, amount: T -> real): real {
    if |months| == 0 then 0.0
    else TotalsOver(months[..|months| - 1], rows, month, amount) + MonthTotal(rows, month, amount, months[|months| - 1])
  }

  /** One more row adds its amount to its own month's total and to no other. */
  lemma MonthTotalAppend<T>(rows: seq<T>, r: T, month: T -> int, amount: T -> real, m: int)
    ensures MonthTotal(rows + [r], month, amount, m)
            == MonthTotal(rows, month, amount, m) + (if month(r) == m then amount(r) else 0.0)
  {
    assert (rows + [r])[..|rows|] == rows;
  }

  lemma MonthsOfAppend<T>(rows: seq<T>, r: T, month: T -> int)
    ensures MonthsOf(rows + [r], month) == MonthsOf(rows, month) + {month(r)}
  {
    assert forall x :: x in rows + [r] <==> x in rows || x == r;
  }

  /** A month no row falls in has total 0. */
  lemma {:induction false} MonthTotalEmpty<T>(rows: seq<T>, month: T -> int, amount: T -> real, m: int)
    requires m !in MonthsOf(rows, month)
    ensures MonthTotal(rows, month, amount, m) == 0.0
  {
    if |rows| > 0 {
      var init := rows[..|rows| - 1];
      assert rows == init + [rows[|rows| - 1]];
      MonthsOfAppend(init, rows[|rows| - 1], month);
      MonthTotalEmpty(init, month, amount, m);
    }
  }

  /** One more row raises exactly the total of its own month, if that month is listed once. */
  lemma {:induction false} TotalsOverAppendRow<T>(months: seq<int>, rows: seq<T>, r: T, month: T -> int, amount: T -> real)
    requires Distinct(months)
    ensures TotalsOver(months, rows + [r], month, amount)
            == TotalsOver(months, rows, month, amount) + (if month(r) in months then amount(r) else 0.0)
  {
    assert (rows + [r])[..|rows + [r]| - 1] == rows;
    if |months| > 0 {
      var init := months[..|months| - 1];
      assert months == init + [months[|months| - 1]];
      TotalsOverAppendRow(init, rows, r, month, amount);
      assert month(r) in months <==> month(r) in init || month(r) == months[|months| - 1];
      if month(r) == months[|months| - 1] {
        assert month(r) !in init;
      }
    }
  }

  /** Adding up the month totals over months that cover every row gives the total of all rows. */
  lemma {:induction false} TotalsOverCovers<T>(months: seq<int>, rows: seq<T>, month: T -> int, amount: T -> real)
    requires Distinct(months)
    requires forall r :: r in rows ==> month(r) in months
    ensures TotalsOver(months, rows, month, amount) == SumOf(rows, amount)
  {
    if |rows| == 0 {
      TotalsOverOfNothing(months, rows, month, amount);
    } else {
      var init, last := rows[..|rows| - 1], rows[|rows| - 1];
      assert rows == init + [last];
      TotalsOverCovers(months, init, month, amount);
      TotalsOverAppendRow(months, init, last, month, amount);
    }
  }

  lemma {:induction false} TotalsOverOfNothing<T>(months: seq<int>, rows: seq<T>, month: T -> int, amount: T -> real)
    requires rows == []
    ensures TotalsOver(months, rows, month, amount) == 0.0
  {
    if |months| > 0 {
      TotalsOverOfNothing(months[..|months| - 1], rows, month, amount);
    }
  }

  /** The months of a list of buckets, in order. */
  function BucketMonths<B>(buckets: seq<B>, bucketMonth: B -> int): (r: seq<int>)
    ensures |r| == |buckets|
    ensures forall k :: 0 <= k < |r| ==> r[k] == bucketMonth(buckets[k])
  {
    seq(|buckets|, k requires 0 <= k < |buckets| => bucketMonth(buckets[k]))
  }

  /**
   * Buckets that each hold their month's total, one per month and covering
   * every row, add up to the total of all rows: no amount is lost or counted
   * twice by the bucketing.
   */
  lemma {:induction false} BucketsAddUp<T, B>(buckets: seq<B>, bucketMonth: B -> int, bucketTotal: B -> real,
                                              rows: seq<T>, month: T -> int, amount: T -> real)
    requires forall k :: 0 <= k < |buckets| ==> bucketTotal(buckets[k]) == MonthTotal(rows, month, amount, bucketMonth(buckets[k]))
    requires Distinct(BucketMonths(buckets, bucketMonth))
    requires forall r :: r in rows ==> month(r) in BucketMonths(buckets, bucketMonth)
    ensures SumOf(buckets, bucketTotal) == SumOf(rows, amount)
  {
    BucketsAreTotalsOver(buckets, bucketMonth, bucketTotal, rows, month, amount);
    TotalsOverCovers(BucketMonths(buckets, bucketMonth), rows, month, amount);
  }

  lemma {:induction false} BucketsAreTotalsOver<T, B>(buckets: seq<B>, bucketMonth: B -> int, bucketTotal: B -> real,
                                                      rows: seq<T>, month: T -> int, amount: T -> real)
    requires forall k :: 0 <= k < |buckets| ==> bucketTotal(buckets[k]) == MonthTotal(rows, month, amount, bucketMonth(buckets[k]))
    ensures SumOf(buckets, bucketTotal) == TotalsOver(BucketMonths(buckets, bucketMonth), rows, month, amount)
  {
    if |buckets| > 0 {
      var init := buckets[..|buckets| - 1];
      BucketsAreTotalsOver(init, bucketMonth, bucketTotal, rows, month, amount);
      assert BucketMonths(buckets, bucketMonth)[..|buckets| - 1] == BucketMonths(init, bucketMonth);
    }
  }
}
