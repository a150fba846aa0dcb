/**
 * The admin dashboard page: the user search, the headline figures, the
 * top-savers chart and the monthly chart.
 */
module AdminDashboard {
  import opened Common
  import opened Sums
  import opened Text
  import opened Records
  import opened Sorting
  import opened Monthly
  import Stats

  /** A user is kept when its lower-cased name or email contains the lower-cased search term. */
  predicate Matches(u: UserWithSavings, term: string) {
    (u.user.name.Some? && Contains(Lower(u.user.name.value), Lower(term)))
    || (u.user.email.Some? && Contains(Lower(u.user.email.value), Lower(term)))
  }

  /** `r` keeps some of the elements of `s`, in their order. */
  ghost predicate SubsequenceOf<T>(r: seq<T>, s: seq<T>)
    decreases |s|
  {
    if r == [] then true
    else if s == [] then false
    else (r[|r| - 1] == s[|s| - 1] && SubsequenceOf(r[..|r| - 1], s[..|s| - 1])) || SubsequenceOf(r, s[..|s| - 1])
  }

  /** `filteredUsers`. */
  function FilteredUsers(users: seq<UserWithSavings>, term: string): (r: seq<UserWithSavings>)
    ensures forall u :: u in r <==> u in users && Matches(u, term)
    ensures SubsequenceOf(r, users)
  {
    if |users| == 0 then []
    else
      var init, last := users[..|users| - 1], users[|users| - 1];
      var kept := FilteredUsers(init, term);
      assert users == init + [last];
      if Matches(last, term) then
        assert (kept + [last])[..|kept|] == kept;
        kept + [last]
      else
        kept
  }

  /** A user with neither name nor email is never listed, whatever the search term, even an empty one. */
  lemma AnonymousNeverListed(users: seq<UserWithSavings>, term: string, u: UserWithSavings)
    requires u.user.name.None? && u.user.email.None?
    ensures u !in FilteredUsers(users, term)
  {
  }

  /** An empty search lists every user that has a name or an email. */
  lemma EmptySearchListsNamed(users: seq<UserWithSavings>, u: UserWithSavings)
    requires u in users && (u.user.name.Some? || u.user.email.Some?)
    ensures u in FilteredUsers(users, "")
  {
    if u.user.name.Some? {
      ContainsItself(Lower(u.user.name.value));
    } else {
      ContainsItself(Lower(u.user.email.value));
    }
  }

  /** The search ignores letter case in the term. */
  lemma SearchIgnoresCase(users: seq<UserWithSavings>, term: string)
    ensures FilteredUsers(users, Lower(term)) == FilteredUsers(users, term)
  {
    LowerIdempotent(term);
    FilterSameTest(users, Lower(term), term);
  }

  lemma LowerIdempotent(s: string)
    ensures Lower(Lower(s)) == Lower(s)
  {
  }

  lemma {:induction false} FilterSameTest(users: seq<UserWithSavings>, a: string, b: string)
    requires Lower(a) == Lower(b)
    ensures FilteredUsers(users, a) == FilteredUsers(users, b)
  {
    if |users| > 0 {
      FilterSameTest(users[..|users| - 1], a, b);
    }
  }

  /** `averageSavings`. */
  function AverageSavings(users: seq<UserWithSavings>): (r: real)
    ensures |users| > 0 ==> r * (|users| as real) == GrandTotal(users)
    ensures users == [] ==> r == 0.0
  {
    Stats.Average(GrandTotal(users), |users|)
  }

  /** `activeUsers`: the number of users with at least one saving. */
  function ActiveUsers(users: seq<UserWithSavings>): (r: nat)
    ensures r <= |users|
    ensures r == |users| <==> forall u :: u in users ==> u.savings != []
  {
    if |users| == 0 then 0
    else
      var init, last := users[..|users| - 1], users[|users| - 1];
      assert users == init + [last];
      ActiveUsers(init) + (if last.savings != [] then 1 else 0)
  }

  /** The active-rate card lies between 0 and 100 percent. */
  lemma ActiveRateIsPercentage(users: seq<UserWithSavings>)
    ensures 0 <= Stats.ActiveRate(ActiveUsers(users), |users|) <= 100
  {
    Stats.ActiveRateBounds(ActiveUsers(users), |users|);
  }

  datatype ChartRow = ChartRow(name: string, savings: real)

  function RowSavings(r: ChartRow): real { r.savings }

  /** One chart row: the name or "Unknown", and the user's total. */
  function ChartRowOf(u: UserWithSavings): ChartRow {
    ChartRow(if TruthyText(u.user.name) then u.user.name.value else "Unknown", UserTotal(u))
  }

  function ChartRows(users: seq<UserWithSavings>): (r: seq<ChartRow>)
    ensures |r| == |users| && forall k :: 0 <= k < |users| ==> r[k] == ChartRowOf(users[k])
  {
    seq(|users|, k requires 0 <= k < |users| => ChartRowOf(users[k]))
  }

  /** `chartData`: the rows sorted by total, largest first, and cut to 10. */
  function ChartData(users: seq<UserWithSavings>): seq<ChartRow> {
    TopN(ChartRows(users), 10, RowSavings)
  }

  /**
   * The chart has up to 10 rows, one per user shown, largest total first,
   * each row a user's name and total, and no user left out saved more than
   * a user shown.
   */
  lemma ChartDataRanks(users: seq<UserWithSavings>)
    ensures |ChartData(users)| == Min(10, |users|)
    ensures SortedDesc(ChartData(users), RowSavings)
    ensures forall x, y :: x in ChartData(users) && y in multiset(ChartRows(users)) - multiset(ChartData(users)) ==>
              RowSavings(x) >= RowSavings(y)
  {
    TopNRanks(ChartRows(users), 10, RowSavings);
  }

  /** Every chart row is the name and total of one of the users. */
  lemma ChartRowsFromUsers(users: seq<UserWithSavings>, r: ChartRow)
    requires r in ChartData(users)
    ensures exists u :: u in users && r == ChartRowOf(u)
  {
    var rows := ChartRows(users);
    TopNFromInput(rows, 10, RowSavings, r);
    var k :| 0 <= k < |rows| && rows[k] == r;
    assert users[k] in users;
  }

  /** One entry of the monthly chart. */
  datatype MonthAmount = MonthAmount(month: int, amount: real)

  function AmountMonth(b: MonthAmount): int { b.month }
  function AmountTotal(b: MonthAmount): real { b.amount }
  function EarlierFirst(b: MonthAmount): real { -(b.month as real) }

  function SavingMonth(monthOf: int -> int): Entry -> int {
    (e: Entry) => monthOf(e.createdAt)
  }

  /** `acc.find((item) => item.month === month)`: the first entry for the month. */
  function FindMonth(acc: seq<MonthAmount>, m: int): (r: Option<nat>)
    ensures r.Some? ==> r.value < |acc| && acc[r.value].month == m
    ensures r.None? ==> forall k :: 0 <= k < |acc| ==> acc[k].month != m
  {
    if |acc| == 0 then None
    else if acc[|acc| - 1].month == m && FindMonth(acc[..|acc| - 1], m).None? then Some(|acc| - 1)
    else FindMonth(acc[..|acc| - 1], m)
  }

  /** The accumulator holds one entry per month seen so far, with that month's total. */
  ghost predicate Bucketed(acc: seq<MonthAmount>, rows: seq<Entry>, monthOf: int -> int) {
    && Distinct(BucketMonths(acc, AmountMonth))
    && (forall k :: 0 <= k < |acc| ==> acc[k].amount == MonthTotal(rows, SavingMonth(monthOf), AmountOf, acc[k].month))
    && (forall m :: m in MonthsOf(rows, SavingMonth(monthOf)) <==> m in BucketMonths(acc, AmountMonth))
  }

  /** A saving whose month already has an entry, added to that entry, keeps the accumulator right. */
  lemma BucketAdd(acc: seq<MonthAmount>, rows: seq<Entry>, e: Entry, monthOf: int -> int, f: nat)
    requires Bucketed(acc, rows, monthOf)
    requires f < |acc| && acc[f].month == monthOf(e.createdAt)
    ensures Bucketed(acc[f := acc[f].(amount := acc[f].amount + e.amount)], rows + [e], monthOf)
  {
    var acc' := acc[f := acc[f].(amount := acc[f].amount + e.amount)];
    MonthsOfAppend(rows, e, SavingMonth(monthOf));
    forall k | 0 <= k < |acc'|
      ensures acc'[k].amount == MonthTotal(rows + [e], SavingMonth(monthOf), AmountOf, acc'[k].month)
    {
      MonthTotalAppend(rows, e, SavingMonth(monthOf), AmountOf, acc'[k].month);
      if k != f {
        assert BucketMonths(acc, AmountMonth)[k] != BucketMonths(acc, AmountMonth)[f];
      }
    }
    assert BucketMonths(acc', AmountMonth) == BucketMonths(acc, AmountMonth);
  }

  /** A saving in a month without an entry, pushed as a new entry, keeps the accumulator right. */
  lemma BucketPush(acc: seq<MonthAmount>, rows: seq<Entry>, e: Entry, monthOf: int -> int)
    requires Bucketed(acc, rows, monthOf)
    requires forall k :: 0 <= k < |acc| ==> acc[k].month != monthOf(e.createdAt)
    ensures Bucketed(acc + [MonthAmount(monthOf(e.createdAt), e.amount)], rows + [e], monthOf)
  {
    var m := monthOf(e.createdAt);
    var acc' := acc + [MonthAmount(m, e.amount)];
    MonthsOfAppend(rows, e, SavingMonth(monthOf));
    forall k | 0 <= k < |acc'|
      ensures acc'[k].amount == MonthTotal(rows + [e], SavingMonth(monthOf), AmountOf, acc'[k].month)
    {
      MonthTotalAppend(rows, e, SavingMonth(monthOf), AmountOf, acc'[k].month);
      if k == |acc| {
        assert m !in BucketMonths(acc, AmountMonth);
        MonthTotalEmpty(rows, SavingMonth(monthOf), AmountOf, m);
      }
    }
    assert BucketMonths(acc', AmountMonth) == BucketMonths(acc, AmountMonth) + [m];
  }

  /**
   * The callback of the inner `forEach` of `monthlyData`: the saving's amount
   * is added to its month's entry, or a new entry is pushed for its month.
   */
  method AddSaving(acc: seq<MonthAmount>, ghost rows: seq<Entry>, saving: Entry, monthOf: int -> int)
    returns (acc': seq<MonthAmount>)
    requires Bucketed(acc, rows, monthOf)
    ensures Bucketed(acc', rows + [saving], monthOf)
  {
    var month := monthOf(saving.createdAt);
    var existing := FindMonth(acc, month);
    if existing.Some? {
      BucketAdd(acc, rows, saving, monthOf, existing.value);
      acc' := acc[existing.value := acc[existing.value].(amount := acc[existing.value].amount + saving.amount)];
    } else {
      BucketPush(acc, rows, saving, monthOf);
      acc' := acc + [MonthAmount(month, saving.amount)];
    }
  }

  /** The inner `forEach` of `monthlyData`: each saving of one user, in order. */
  method AddSavings(acc: seq<MonthAmount>, ghost seen: seq<Entry>, savings: seq<Entry>, monthOf: int -> int)
    returns (acc': seq<MonthAmount>)
    requires Bucketed(acc, seen, monthOf)
    ensures Bucketed(acc', seen + savings, monthOf)
  {
    acc' := acc;
    ghost var rows := seen;
    var j := 0;
    while j < |savings|
      invariant 0 <= j <= |savings|
      invariant rows == seen + savings[..j]
      invariant Bucketed(acc', rows, monthOf)
    {
      acc' := AddSaving(acc', rows, savings[j], monthOf);
      rows := rows + [savings[j]];
      assert savings[..j + 1] == savings[..j] + [savings[j]];
      j := j + 1;
    }
    assert savings[..j] == savings;
  }

  /**
   * `monthlyData`: every saving of every user adds its amount to its
   * month's entry (pushed on the month's first saving); the entries are then
   * sorted by month. The months come out strictly increasing, one per month
   * that has a saving, and together they hold `totalSavings`.
   */
  method MonthlyData(users: seq<UserWithSavings>, monthOf: int -> int) returns (buckets: seq<MonthAmount>)
    ensures forall j, k :: 0 <= j < k < |buckets| ==> buckets[j].month < buckets[k].month
    ensures forall b :: b in buckets ==> b.amount == MonthTotal(Flatten(users), SavingMonth(monthOf), AmountOf, b.month)
    ensures (set b | b in buckets :: b.month) == MonthsOf(Flatten(users), SavingMonth(monthOf))
    ensures SumOf(buckets, AmountTotal) == GrandTotal(users)
  {
    var acc: seq<MonthAmount> := [];
    var i := 0;
    while i < |users|
      invariant 0 <= i <= |users|
      invariant Bucketed(acc, Flatten(users[..i]), monthOf)
    {
      acc := AddSavings(acc, Flatten(users[..i]), users[i].savings, monthOf);
      assert users[..i + 1][..i] == users[..i];
      i := i + 1;
    }
    assert users[..i] == users;
    buckets := SortDesc(acc, EarlierFirst);
    MonthlyFacts(acc, buckets, Flatten(users), monthOf);
  }

  /** The buckets come out in strictly increasing month order. */
  lemma MonthlyOrdered(acc: seq<MonthAmount>, buckets: seq<MonthAmount>, rows: seq<Entry>, monthOf: int -> int)
    requires Bucketed(acc, rows, monthOf)
    requires buckets == SortDesc(acc, EarlierFirst)
    ensures forall j, k :: 0 <= j < k < |buckets| ==> buckets[j].month < buckets[k].month
  {
    var months := BucketMonths(acc, AmountMonth);
    assert DistinctKeys(acc, EarlierFirst) by {
      forall j, k | 0 <= j < k < |acc| ensures EarlierFirst(acc[j]) != EarlierFirst(acc[k]) {
        assert months[j] != months[k];
      }
    }
    SortDescSorted(acc, EarlierFirst);
    SortDescDistinct(acc, EarlierFirst);
  }

  /** Every bucket holds its month's total, and the buckets' months are exactly the savings' months. */
  lemma MonthlyBuckets(acc: seq<MonthAmount>, buckets: seq<MonthAmount>, rows: seq<Entry>, monthOf: int -> int)
    requires Bucketed(acc, rows, monthOf)
    requires multiset(buckets) == multiset(acc)
    ensures forall b :: b in buckets ==> b.amount == MonthTotal(rows, SavingMonth(monthOf), AmountOf, b.month)
    ensures (set b | b in buckets :: b.month) == MonthsOf(rows, SavingMonth(monthOf))
  {
    var months := BucketMonths(acc, AmountMonth);
    SameMembers(buckets, acc);
    forall b | b in acc ensures b.amount == MonthTotal(rows, SavingMonth(monthOf), AmountOf, b.month) {
      var k :| 0 <= k < |acc| && acc[k] == b;
    }
    forall m | m in MonthsOf(rows, SavingMonth(monthOf)) ensures m in (set b | b in buckets :: b.month) {
      var k :| 0 <= k < |months| && months[k] == m;
      assert acc[k] in buckets;
    }
    forall m | m in (set b | b in buckets :: b.month) ensures m in MonthsOf(rows, SavingMonth(monthOf)) {
      var b :| b in buckets && b.month == m;
      var k :| 0 <= k < |acc| && acc[k] == b;
      assert months[k] == m;
    }
  }

  /** The buckets add up to the total of all savings. */
  lemma MonthlySum(acc: seq<MonthAmount>, buckets: seq<MonthAmount>, rows: seq<Entry>, monthOf: int -> int)
    requires Bucketed(acc, rows, monthOf)
    requires multiset(buckets) == multiset(acc)
    ensures SumOf(buckets, AmountTotal) == SumOf(rows, AmountOf)
  {
    var months := BucketMonths(acc, AmountMonth);
    forall r | r in rows ensures SavingMonth(monthOf)(r) in months {
      var mr := SavingMonth(monthOf)(r);
      assert mr in MonthsOf(rows, SavingMonth(monthOf));
    }
    BucketsAddUp(acc, AmountMonth, AmountTotal, rows, SavingMonth(monthOf), AmountOf);
    SumOfPermutation(buckets, acc, AmountTotal);
  }

  lemma MonthlyFacts(acc: seq<MonthAmount>, buckets: seq<MonthAmount>, rows: seq<Entry>, monthOf: int -> int)
    requires Bucketed(acc, rows, monthOf)
    requires buckets == SortDesc(acc, EarlierFirst)
    ensures forall j, k :: 0 <= j < k < |buckets| ==> buckets[j].month < buckets[k].month
    ensures forall b :: b in buckets ==> b.amount == MonthTotal(rows, SavingMonth(monthOf), AmountOf, b.month)
    ensures (set b | b in buckets :: b.month) == MonthsOf(rows, SavingMonth(monthOf))
    ensures SumOf(buckets, AmountTotal) == SumOf(rows, AmountOf)
  {
    MonthlyOrdered(acc, buckets, rows, monthOf);
    MonthlyBuckets(acc, buckets, rows, monthOf);
    MonthlySum(acc, buckets, rows, monthOf);
  }
}
