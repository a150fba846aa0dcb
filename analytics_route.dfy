/**
 * GET /api/admin/analytics: user count, savings totals, the average per
 * user, and the savings grouped into months in calendar order.
 */
module AnalyticsRoute {
  import opened Common
  import opened Sums
  import opened Records
  import opened Access
  import opened Ledger
  import opened Sorting
  import opened Monthly

  /** One row of the database's group-by on `createdAt`: the summed amount (null when nothing was summed) and the row count. */
  datatype GroupRow = GroupRow(createdAt: int, sum: Option<real>, count: nat)

  datatype MonthBucket = MonthBucket(month: int, total: real, count: nat)

  datatype Report = Report(totalUsers: nat, totalSavings: real, recentSavings: real,
                           averagePerUser: real, monthlyData: seq<MonthBucket>)

  /** `Number(item._sum.amount) || 0`. */
  function RowTotal(r: GroupRow): real {
    OrZero(r.sum)
  }

  function RowMonth(monthOf: int -> int): GroupRow -> int {
    (r: GroupRow) => monthOf(r.createdAt)
  }

  function BucketMonth(b: MonthBucket): int { b.month }
  function BucketTotal(b: MonthBucket): real { b.total }

  /** Sort key putting the earlier month first. */
  function EarlierFirst(b: MonthBucket): real { -(b.month as real) }

  /** The sum of the row counts of the rows in month `m`. */
  function MonthCount(rows: seq<GroupRow>, monthOf: int -> int, m: int): nat {
    if |rows| == 0 then 0
    else MonthCount(rows[..|rows| - 1], monthOf, m)
         + (if monthOf(rows[|rows| - 1].createdAt) == m then rows[|rows| - 1].count else 0)
  }

  /** The savings created at or after `since` (the `gte` filter). */
  function CreatedSince(entries: seq<Entry>, since: int): (r: seq<Entry>)
    ensures forall e :: e in r <==> e in entries && e.createdAt >= since
  {
    if |entries| == 0 then []
    else CreatedSince(entries[..|entries| - 1], since)
         + (if entries[|entries| - 1].createdAt >= since then [entries[|entries| - 1]] else [])
  }

  /** The accumulator after each row has added its sum and count to its month's entry. */
  ghost predicate Accumulated(acc: map<int, MonthBucket>, order: seq<int>, rows: seq<GroupRow>, monthOf: int -> int) {
    && Distinct(order)
    && (forall m :: m in acc <==> m in order)
    && acc.Keys == MonthsOf(rows, RowMonth(monthOf))
    && (forall m :: m in acc ==>
          acc[m].month == m
          && acc[m].total == MonthTotal(rows, RowMonth(monthOf), RowTotal, m)
          && acc[m].count == MonthCount(rows, monthOf, m))
  }

  /** `acc[month].total += Number(item._sum.amount) || 0` and `acc[month].count += item._count.id`. */
  function Bump(acc: map<int, MonthBucket>, m: int, row: GroupRow): map<int, MonthBucket>
    requires m in acc
  {
    acc[m := acc[m].(total := acc[m].total + RowTotal(row), count := acc[m].count + row.count)]
  }

  /** A row whose month already has an entry, added to it, keeps the accumulator right. */
  lemma AccumulateExisting(acc: map<int, MonthBucket>, order: seq<int>, rows: seq<GroupRow>, row: GroupRow, monthOf: int -> int)
    requires Accumulated(acc, order, rows, monthOf) && monthOf(row.createdAt) in acc
    ensures Accumulated(Bump(acc, monthOf(row.createdAt), row), order, rows + [row], monthOf)
  {
    var acc' := Bump(acc, monthOf(row.createdAt), row);
    MonthsOfAppend(rows, row, RowMonth(monthOf));
    forall k | k in acc'
      ensures acc'[k].month == k
      ensures acc'[k].total == MonthTotal(rows + [row], RowMonth(monthOf), RowTotal, k)
      ensures acc'[k].count == MonthCount(rows + [row], monthOf, k)
    {
      MonthTotalAppend(rows, row, RowMonth(monthOf), RowTotal, k);
      MonthCountAppend(rows, row, monthOf, k);
    }
  }

  /** A row in a month without an entry, added to a fresh zero entry, keeps the accumulator right. */
  lemma AccumulateNew(acc: map<int, MonthBucket>, order: seq<int>, rows: seq<GroupRow>, row: GroupRow, monthOf: int -> int)
    requires Accumulated(acc, order, rows, monthOf) && monthOf(row.createdAt) !in acc
    ensures var m := monthOf(row.createdAt);
            Accumulated(Bump(acc[m := MonthBucket(m, 0.0, 0)], m, row), order + [m], rows + [row], monthOf)
  {
    var m := monthOf(row.createdAt);
    var acc' := Bump(acc[m := MonthBucket(m, 0.0, 0)], m, row);
    assert m !in order;
    MonthTotalEmpty(rows, RowMonth(monthOf), RowTotal, m);
    MonthCountEmpty(rows, monthOf, m);
    MonthsOfAppend(rows, row, RowMonth(monthOf));
    forall k | k in acc'
      ensures acc'[k].month == k
      ensures acc'[k].total == MonthTotal(rows + [row], RowMonth(monthOf), RowTotal, k)
      ensures acc'[k].count == MonthCount(rows + [row], monthOf, k)
    {
      MonthTotalAppend(rows, row, RowMonth(monthOf), RowTotal, k);
      MonthCountAppend(rows, row, monthOf, k);
    }
  }

  /**
   * The callback of the `reduce`: the row's month gets a zero entry when it
   * has none (and its key is remembered in creation order), then the row's
   * sum and count are added to that entry.
   */
  method AddRow(acc: map<int, MonthBucket>, order: seq<int>, ghost rows: seq<GroupRow>, row: GroupRow, monthOf: int -> int)
    returns (acc': map<int, MonthBucket>, order': seq<int>)
    requires Accumulated(acc, order, rows, monthOf)
    ensures Accumulated(acc', order', rows + [row], monthOf)
  {
    var m := monthOf(row.createdAt);
    acc', order' := acc, order;
    if m !in acc' {
      AccumulateNew(acc, order, rows, row, monthOf);
      acc' := acc'[m := MonthBucket(m, 0.0, 0)];
      order' := order' + [m];
    } else {
      AccumulateExisting(acc, order, rows, row, monthOf);
    }
    acc' := Bump(acc', m, row);
  }

  /**
   * The `reduce` over the grouped rows: each row adds its sum and count to
   * the entry of its month key, the entry being created on the month's first
   * row. `order` lists the keys in the order the entries were created.
   */
  method Accumulate(rows: seq<GroupRow>, monthOf: int -> int) returns (acc: map<int, MonthBucket>, order: seq<int>)
    ensures Accumulated(acc, order, rows, monthOf)
  {
    acc, order := map[], [];
    ghost var seen: seq<GroupRow> := [];
    var i := 0;
    while i < |rows|
      invariant 0 <= i <= |rows|
      invariant seen == rows[..i]
      invariant Accumulated(acc, order, seen, monthOf)
    {
      acc, order := AddRow(acc, order, seen, rows[i], monthOf);
      seen := seen + [rows[i]];
      assert rows[..i + 1] == rows[..i] + [rows[i]];
      i := i + 1;
    }
    assert rows[..i] == rows;
  }

  lemma MonthCountAppend(rows: seq<GroupRow>, row: GroupRow, monthOf: int -> int, m: int)
    ensures MonthCount(rows + [row], monthOf, m)
            == MonthCount(rows, monthOf, m) + (if monthOf(row.createdAt) == m then row.count else 0)
  {
    assert (rows + [row])[..|rows|] == rows;
  }

  /** `Object.values(acc)`: the entries in the order they were created. */
  function Values(acc: map<int, MonthBucket>, order: seq<int>): (r: seq<MonthBucket>)
    requires forall k :: 0 <= k < |order| ==> order[k] in acc
    ensures |r| == |order| && forall k :: 0 <= k < |order| ==> r[k] == acc[order[k]]
  {
    seq(|order|, k requires 0 <= k < |order| => acc[order[k]])
  }

  lemma AccumulatedInDomain(acc: map<int, MonthBucket>, order: seq<int>, rows: seq<GroupRow>, monthOf: int -> int)
    requires Accumulated(acc, order, rows, monthOf)
    ensures forall k :: 0 <= k < |order| ==> order[k] in acc
  {
    forall k | 0 <= k < |order| ensures order[k] in acc {
      assert order[k] in order;
    }
  }

  /** The buckets in month order. */
  function Ordered(acc: map<int, MonthBucket>, order: seq<int>): seq<MonthBucket>
    requires forall k :: 0 <= k < |order| ==> order[k] in acc
  {
    SortDesc(Values(acc, order), EarlierFirst)
  }

  /**
   * The monthly grouping: the reducer, then the sort by month key. The
   * buckets come out in strictly increasing month order, one per month that
   * has a row, each holding its month's sum and count, and together they
   * hold the sum of all rows.
   */
  method GroupByMonth(rows: seq<GroupRow>, monthOf: int -> int) returns (buckets: seq<MonthBucket>)
    ensures forall j, k :: 0 <= j < k < |buckets| ==> buckets[j].month < buckets[k].month
    ensures forall b :: b in buckets ==>
              b.total == MonthTotal(rows, RowMonth(monthOf), RowTotal, b.month)
              && b.count == MonthCount(rows, monthOf, b.month)
    ensures (set b | b in buckets :: b.month) == MonthsOf(rows, RowMonth(monthOf))
    ensures SumOf(buckets, BucketTotal) == SumOf(rows, RowTotal)
  {
    var acc, order := Accumulate(rows, monthOf);
    AccumulatedInDomain(acc, order, rows, monthOf);
    buckets := Ordered(acc, order);
    ValuesHoldTotals(acc, order, rows, monthOf);
    OrderedBuckets(Values(acc, order), buckets);
  }

  /** The month keys of `Object.values(acc)` are the keys in creation order. */
  lemma ValuesMonths(acc: map<int, MonthBucket>, order: seq<int>, rows: seq<GroupRow>, monthOf: int -> int)
    requires Accumulated(acc, order, rows, monthOf)
    requires forall k :: 0 <= k < |order| ==> order[k] in acc
    ensures BucketMonths(Values(acc, order), BucketMonth) == order
  {
    var values := Values(acc, order);
    forall k | 0 <= k < |order| ensures BucketMonths(values, BucketMonth)[k] == order[k] {
      assert order[k] in acc;
    }
  }

  /** The unsorted buckets add up to the total of the rows. */
  lemma ValuesSum(acc: map<int, MonthBucket>, order: seq<int>, rows: seq<GroupRow>, monthOf: int -> int)
    requires Accumulated(acc, order, rows, monthOf)
    requires forall k :: 0 <= k < |order| ==> order[k] in acc
    ensures SumOf(Values(acc, order), BucketTotal) == SumOf(rows, RowTotal)
  {
    var values := Values(acc, order);
    ValuesMonths(acc, order, rows, monthOf);
    forall r | r in rows ensures RowMonth(monthOf)(r) in order {
      var mr := RowMonth(monthOf)(r);
      assert mr in MonthsOf(rows, RowMonth(monthOf));
      assert mr in acc.Keys;
    }
    BucketsAddUp(values, BucketMonth, BucketTotal, rows, RowMonth(monthOf), RowTotal);
  }

  /** The unsorted buckets' months are exactly the months of the rows. */
  lemma ValuesMonthSet(acc: map<int, MonthBucket>, order: seq<int>, rows: seq<GroupRow>, monthOf: int -> int)
    requires Accumulated(acc, order, rows, monthOf)
    requires forall k :: 0 <= k < |order| ==> order[k] in acc
    ensures (set b | b in Values(acc, order) :: b.month) == MonthsOf(rows, RowMonth(monthOf))
  {
    var values := Values(acc, order);
    forall m | m in MonthsOf(rows, RowMonth(monthOf)) ensures m in (set b | b in values :: b.month) {
      assert m in acc.Keys;
      var k :| 0 <= k < |order| && order[k] == m;
      assert values[k] in values;
    }
    forall m | m in (set b | b in values :: b.month) ensures m in MonthsOf(rows, RowMonth(monthOf)) {
      var b :| b in values && b.month == m;
      var k :| 0 <= k < |values| && values[k] == b;
      assert order[k] in acc;
    }
  }

  /** Each unsorted bucket holds its month's sum and count. */
  lemma ValuesTotals(acc: map<int, MonthBucket>, order: seq<int>, rows: seq<GroupRow>, monthOf: int -> int)
    requires Accumulated(acc, order, rows, monthOf)
    requires forall k :: 0 <= k < |order| ==> order[k] in acc
    ensures forall b :: b in Values(acc, order) ==>
              b.total == MonthTotal(rows, RowMonth(monthOf), RowTotal, b.month)
              && b.count == MonthCount(rows, monthOf, b.month)
  {
    var values := Values(acc, order);
    forall b | b in values
      ensures b.total == MonthTotal(rows, RowMonth(monthOf), RowTotal, b.month)
      ensures b.count == MonthCount(rows, monthOf, b.month)
    {
      var k :| 0 <= k < |values| && values[k] == b;
      assert order[k] in acc;
    }
  }

  /** No two unsorted buckets share a month. */
  lemma ValuesDistinct(acc: map<int, MonthBucket>, order: seq<int>, rows: seq<GroupRow>, monthOf: int -> int)
    requires Accumulated(acc, order, rows, monthOf)
    requires forall k :: 0 <= k < |order| ==> order[k] in acc
    ensures DistinctKeys(Values(acc, order), EarlierFirst)
  {
    var values := Values(acc, order);
    forall i, j | 0 <= i < j < |values| ensures EarlierFirst(values[i]) != EarlierFirst(values[j]) {
      assert order[i] in acc && order[j] in acc;
      assert values[i].month == order[i] && values[j].month == order[j];
    }
  }

  /** The unsorted buckets already hold the month totals, one per month, adding up to the total of the rows. */
  lemma ValuesHoldTotals(acc: map<int, MonthBucket>, order: seq<int>, rows: seq<GroupRow>, monthOf: int -> int)
    requires Accumulated(acc, order, rows, monthOf)
    requires forall k :: 0 <= k < |order| ==> order[k] in acc
    ensures forall b :: b in Values(acc, order) ==>
              b.total == MonthTotal(rows, RowMonth(monthOf), RowTotal, b.month)
              && b.count == MonthCount(rows, monthOf, b.month)
    ensures (set b | b in Values(acc, order) :: b.month) == MonthsOf(rows, RowMonth(monthOf))
    ensures SumOf(Values(acc, order), BucketTotal) == SumOf(rows, RowTotal)
    ensures DistinctKeys(Values(acc, order), EarlierFirst)
  {
    ValuesTotals(acc, order, rows, monthOf);
    ValuesMonthSet(acc, order, rows, monthOf);
    ValuesSum(acc, order, rows, monthOf);
    ValuesDistinct(acc, order, rows, monthOf);
  }

  /** Sorting by month keeps the buckets and puts them in strictly increasing month order. */
  lemma OrderedBuckets(values: seq<MonthBucket>, buckets: seq<MonthBucket>)
    requires DistinctKeys(values, EarlierFirst)
    requires buckets == SortDesc(values, EarlierFirst)
    ensures forall j, k :: 0 <= j < k < |buckets| ==> buckets[j].month < buckets[k].month
    ensures forall b :: b in buckets <==> b in values
    ensures SumOf(buckets, BucketTotal) == SumOf(values, BucketTotal)
  {
    SortDescSorted(values, EarlierFirst);
    SortDescDistinct(values, EarlierFirst);
    SumOfPermutation(buckets, values, BucketTotal);
    SameMembers(buckets, values);
  }

  lemma {:induction false} MonthCountEmpty(rows: seq<GroupRow>, monthOf: int -> int, m: int)
    requires m !in MonthsOf(rows, RowMonth(monthOf))
    ensures MonthCount(rows, monthOf, m) == 0
  {
    if |rows| > 0 {
      var init := rows[..|rows| - 1];
      assert rows == init + [rows[|rows| - 1]];
      MonthsOfAppend(init, rows[|rows| - 1], RowMonth(monthOf));
      MonthCountEmpty(init, monthOf, m);
    }
  }

  /**
   * The handler: the admin check, then the figures. `grouped` is the
   * database's group-by of the savings of the last twelve months, and
   * `recentSince` the instant thirty days before now.
   */
  method Analytics(session: Option<SessionUser>, users: seq<User>, savings: seq<Entry>,
                   grouped: seq<GroupRow>, recentSince: int, monthOf: int -> int)
    returns (gate: Gate, report: Option<Report>)
    ensures gate == GateByEmail(session, users)
    ensures report.Some? <==> gate.Proceed?
    ensures report.Some? ==>
              && report.value.totalUsers == |users|
              && report.value.totalSavings == Total(savings)
              && report.value.recentSavings == Total(CreatedSince(savings, recentSince))
              && report.value.averagePerUser == (if |users| > 0 then Total(savings) / (|users| as real) else 0.0)
              && (forall j, k :: 0 <= j < k < |report.value.monthlyData| ==>
                    report.value.monthlyData[j].month < report.value.monthlyData[k].month)
              && SumOf(report.value.monthlyData, BucketTotal) == SumOf(grouped, RowTotal)
    ensures report.Some? ==>
              forall b :: b in report.value.monthlyData ==>
                b.total == MonthTotal(grouped, RowMonth(monthOf), RowTotal, b.month)
                && b.count == MonthCount(grouped, monthOf, b.month)
    ensures report.Some? ==>
              (set b | b in report.value.monthlyData :: b.month) == MonthsOf(grouped, RowMonth(monthOf))
  {
    gate := GateByEmail(session, users);
    if gate.Deny? {
      return gate, None;
    }
    var totalUsers := |users|;
    var totalSum := AggregateSum(savings);
    var recentSum := AggregateSum(CreatedSince(savings, recentSince));
    var monthly := GroupByMonth(grouped, monthOf);
    var average := if totalUsers > 0 then OrZero(totalSum) / (totalUsers as real) else 0.0;
    NoSavingsTotalZero(savings);
    NoSavingsTotalZero(CreatedSince(savings, recentSince));
    report := Some(Report(totalUsers, OrZero(totalSum), OrZero(recentSum), average, monthly));
  }

  /** A null aggregate (no rows) and the total of no rows agree: both are 0. */
  lemma NoSavingsTotalZero(rows: seq<Entry>)
    ensures OrZero(AggregateSum(rows)) == Total(rows)
  {
  }
}
