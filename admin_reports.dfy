/**
 * The admin's reports tab: the ten users with the largest totals, the 25
 * newest savings, and the ten users with the most savings in the last
 * thirty days.
 */
module AdminReports {
  import opened Common
  import opened Sums
  import opened Records
  import opened Sorting
  import opened Stats
  import opened AdminTables

  /** A row of the top-users table. */
  datatype ReportRow = ReportRow(name: string, email: Option<string>, total: real, entries: nat, progress: real)

  function ReportRowOf(r: Ranked): ReportRow {
    var u := r.user;
    ReportRow(if TruthyText(u.user.name) then u.user.name.value else "No name",
              u.user.email, r.total, |u.savings|, CappedProgress(r.total, u.user.goal))
  }

  /** Top users: the ten largest totals, each with `goal ? min(total / goal * 100, 100) : 0`. */
  function TopUsers(users: seq<UserWithSavings>): (r: seq<ReportRow>)
    ensures |r| == |TopByTotal(users, 10)|
    ensures forall k :: 0 <= k < |r| ==> r[k] == ReportRowOf(TopByTotal(users, 10)[k])
  {
    var top := TopByTotal(users, 10);
    seq(|top|, k requires 0 <= k < |top| => ReportRowOf(top[k]))
  }

  /**
   * At most ten rows, largest total first; each row is one user's total,
   * entry count and capped progress.
   */
  lemma TopUsersRanked(users: seq<UserWithSavings>)
    ensures |TopUsers(users)| == Min(10, |users|)
    ensures forall j, k :: 0 <= j < k < |TopUsers(users)| ==> TopUsers(users)[j].total >= TopUsers(users)[k].total
    ensures forall k :: 0 <= k < |TopUsers(users)| ==>
              exists u :: u in users && TopUsers(users)[k].total == UserTotal(u) && TopUsers(users)[k].entries == |u.savings|
                          && TopUsers(users)[k].progress == CappedProgress(UserTotal(u), u.user.goal)
                          && TopUsers(users)[k].progress <= 100.0
  {
    var top := TopByTotal(users, 10);
    TopByTotalRanks(users, 10);
    forall k | 0 <= k < |TopUsers(users)|
      ensures exists u :: u in users && TopUsers(users)[k].total == UserTotal(u) && TopUsers(users)[k].entries == |u.savings|
                          && TopUsers(users)[k].progress == CappedProgress(UserTotal(u), u.user.goal)
                          && TopUsers(users)[k].progress <= 100.0
    {
      assert top[k] in top;
      var u := top[k].user;
      assert u in users;
    }
  }

  /**
   * Recent activity: `allSavings` is sorted in place, newest first, and its
   * first 25 entries are shown.
   */
  method RecentActivity(allSavings: array<SavingWithUser>) returns (shown: seq<SavingWithUser>)
    modifies allSavings
    ensures multiset(allSavings[..]) == multiset(old(allSavings[..]))
    ensures SortedDesc(allSavings[..], CreatedAt)
    ensures shown == allSavings[..Min(25, allSavings.Length)]
    ensures |shown| <= 25
    ensures NoneNewerLeftOut(shown, multiset(old(allSavings[..])))
  {
    shown := NewestFirst(allSavings, 25);
  }

  /** A row of the most-active table: the user, how many savings in the window, and their sum. */
  datatype ActivityRow = ActivityRow(user: UserWithSavings, count: nat, total: real)

  function ActivityCount(a: ActivityRow): real { a.count as real }

  /** The savings of the last thirty days: created strictly after `now - 30 days`. */
  function LastThirtyDays(savings: seq<Entry>, now: int): (r: seq<Entry>)
    ensures forall e :: e in r <==> e in savings && e.createdAt > now - 30 * DayMs
  {
    NewerThan(savings, EntryCreated, now - 30 * DayMs)
  }

  /** `{ u, count: recent.length, total: recent.reduce(sum) }`. */
  function ActivityOf(u: UserWithSavings, now: int): (r: ActivityRow)
    ensures r.user == u && r.count <= |u.savings|
  {
    var recent := LastThirtyDays(u.savings, now);
    ActivityRow(u, |recent|, Total(recent))
  }

  function Activities(users: seq<UserWithSavings>, now: int): (r: seq<ActivityRow>)
    ensures |r| == |users|
    ensures forall k :: 0 <= k < |users| ==> r[k] == ActivityOf(users[k], now)
  {
    seq(|users|, k requires 0 <= k < |users| => ActivityOf(users[k], now))
  }

  /** Most active: sorted by count, largest first, at most ten. */
  function MostActive(users: seq<UserWithSavings>, now: int): seq<ActivityRow> {
    TopN(Activities(users, now), 10, ActivityCount)
  }

  /**
   * At most ten rows, by count largest first; every row is one user's
   * activity, and no user left out has more recent savings than a user shown.
   */
  lemma MostActiveRanks(users: seq<UserWithSavings>, now: int)
    ensures |MostActive(users, now)| == Min(10, |users|)
    ensures forall j, k :: 0 <= j < k < |MostActive(users, now)| ==> MostActive(users, now)[j].count >= MostActive(users, now)[k].count
    ensures forall a :: a in MostActive(users, now) ==> a.user in users && a == ActivityOf(a.user, now)
    ensures forall u, a :: u in users && ActivityOf(u, now) !in MostActive(users, now) && a in MostActive(users, now) ==>
              a.count >= ActivityOf(u, now).count
  {
    var all := Activities(users, now);
    var top := MostActive(users, now);
    TopNRanks(all, 10, ActivityCount);
    forall j, k | 0 <= j < k < |top| ensures top[j].count >= top[k].count {
      assert ActivityCount(top[j]) >= ActivityCount(top[k]);
    }
    forall a | a in top ensures a.user in users && a == ActivityOf(a.user, now) {
      TopNFromInput(all, 10, ActivityCount, a);
      var k :| 0 <= k < |all| && all[k] == a;
    }
    TopNOutranks(all, 10, ActivityCount);
    forall u, a | u in users && ActivityOf(u, now) !in top && a in top ensures a.count >= ActivityOf(u, now).count {
      var k :| 0 <= k < |users| && users[k] == u;
      assert all[k] == ActivityOf(u, now) && all[k] in all;
      assert ActivityCount(a) >= ActivityCount(all[k]);
    }
  }

  /** With amounts that are not negative, the thirty-day sum never exceeds the user's total. */
  lemma {:induction false} RecentWithinTotal(savings: seq<Entry>, now: int)
    requires forall e :: e in savings ==> e.amount >= 0.0
    ensures Total(LastThirtyDays(savings, now)) <= Total(savings)
    decreases |savings|
  {
    if |savings| > 0 {
      var init, last := savings[..|savings| - 1], savings[|savings| - 1];
      assert savings == init + [last];
      RecentWithinTotal(init, now);
      var kept := if last.createdAt > now - 30 * DayMs then [last] else [];
      assert LastThirtyDays(savings, now) == LastThirtyDays(init, now) + kept;
      TotalAppend(LastThirtyDays(init, now), kept);
      TotalAppend(init, [last]);
    }
  }
}
