/**
 * The admin's analytics tab: the headline cards, which prefer the figures
 * of the analytics route and fall back on the locally computed ones, and
 * the ten top performers with their rank.
 */
module AdminAnalytics {
  import opened Common
  import opened Records
  import opened Stats
  import opened AdminTables
  import AnalyticsRoute

  /** The four headline cards. */
  datatype Cards = Cards(users: nat, savings: real, recent: real, average: real)

  /**
   * `analytics?.totalUsers || totalUsers`, `analytics?.totalSavings || totalSavings`,
   * `analytics?.recentSavings || 0` and `analytics?.averagePerUser || local average`:
   * a figure of the route is shown unless it is missing or 0.
   */
  function CardsShown(analytics: Option<AnalyticsRoute.Report>, totalUsers: nat, totalSavings: real): (r: Cards)
    ensures analytics.Some? && analytics.value.totalUsers != 0 ==> r.users == analytics.value.totalUsers
    ensures analytics.Some? && analytics.value.totalSavings != 0.0 ==> r.savings == analytics.value.totalSavings
    ensures analytics.Some? && analytics.value.recentSavings != 0.0 ==> r.recent == analytics.value.recentSavings
    ensures analytics.Some? && analytics.value.averagePerUser != 0.0 ==> r.average == analytics.value.averagePerUser
    ensures r.users == totalUsers || (analytics.Some? && r.users == analytics.value.totalUsers)
    ensures r.savings == totalSavings || (analytics.Some? && r.savings == analytics.value.totalSavings)
    ensures r.recent == 0.0 || (analytics.Some? && r.recent == analytics.value.recentSavings)
    ensures r.average == Average(totalSavings, totalUsers) || (analytics.Some? && r.average == analytics.value.averagePerUser)
  {
    match analytics
    case None => Cards(totalUsers, totalSavings, 0.0, Average(totalSavings, totalUsers))
    case Some(a) =>
      Cards(if a.totalUsers != 0 then a.totalUsers else totalUsers,
            if a.totalSavings != 0.0 then a.totalSavings else totalSavings,
            a.recentSavings,
            if a.averagePerUser != 0.0 then a.averagePerUser else Average(totalSavings, totalUsers))
  }

  /** Before the route has answered, every card shows the local figure and recent savings show 0. */
  lemma CardsWithoutAnalytics(totalUsers: nat, totalSavings: real)
    ensures CardsShown(None, totalUsers, totalSavings) == Cards(totalUsers, totalSavings, 0.0, Average(totalSavings, totalUsers))
  {
  }

  /**
   * When the route's report was computed from the same users and savings as
   * the local figures, the fallbacks make no difference: the cards show the
   * same numbers whichever source a card took.
   */
  lemma CardsAgreeWithRoute(report: AnalyticsRoute.Report, totalUsers: nat, totalSavings: real)
    requires report.totalUsers == totalUsers && report.totalSavings == totalSavings
    requires report.averagePerUser == Average(totalSavings, totalUsers)
    ensures CardsShown(Some(report), totalUsers, totalSavings)
            == Cards(totalUsers, totalSavings, report.recentSavings, Average(totalSavings, totalUsers))
  {
  }

  /** A row of the top-performers table. */
  datatype PerformerRow = PerformerRow(rank: nat, name: string, email: Option<string>, total: real,
                                       entries: nat, progress: real, frequency: Option<string>)

  function PerformerRowOf(r: Ranked, index: nat): PerformerRow {
    var u := r.user;
    PerformerRow(index + 1, if TruthyText(u.user.name) then u.user.name.value else "No name",
                 u.user.email, r.total, |u.savings|, CappedProgress(r.total, u.user.goal), u.user.frequency)
  }

  /** Top performers: the ten largest totals, ranked from 1. */
  function TopPerformers(users: seq<UserWithSavings>): (r: seq<PerformerRow>)
    ensures |r| == |TopByTotal(users, 10)|
    ensures forall k :: 0 <= k < |r| ==> r[k] == PerformerRowOf(TopByTotal(users, 10)[k], k)
  {
    var top := TopByTotal(users, 10);
    seq(|top|, k requires 0 <= k < |top| => PerformerRowOf(top[k], k))
  }

  /**
   * Ranks run 1, 2, … down the table, a better rank never has a smaller
   * total, and each row is one user's total with its capped progress.
   */
  lemma TopPerformersRanked(users: seq<UserWithSavings>)
    ensures |TopPerformers(users)| == Min(10, |users|)
    ensures forall k :: 0 <= k < |TopPerformers(users)| ==> TopPerformers(users)[k].rank == k + 1
    ensures forall j, k :: 0 <= j < k < |TopPerformers(users)| ==>
              TopPerformers(users)[j].rank < TopPerformers(users)[k].rank
              && TopPerformers(users)[j].total >= TopPerformers(users)[k].total
    ensures forall k :: 0 <= k < |TopPerformers(users)| ==>
              exists u :: u in users && TopPerformers(users)[k].total == UserTotal(u)
                          && TopPerformers(users)[k].progress == CappedProgress(UserTotal(u), u.user.goal)
                          && TopPerformers(users)[k].progress <= 100.0
  {
    var top := TopByTotal(users, 10);
    TopByTotalRanks(users, 10);
    forall k | 0 <= k < |TopPerformers(users)|
      ensures exists u :: u in users && TopPerformers(users)[k].total == UserTotal(u)
                          && TopPerformers(users)[k].progress == CappedProgress(UserTotal(u), u.user.goal)
                          && TopPerformers(users)[k].progress <= 100.0
    {
      assert top[k] in top;
      var u := top[k].user;
      assert u in users;
    }
  }
}
