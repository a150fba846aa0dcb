/**
 * The admin's overview tab: the average per user, the number of savings of
 * the last seven days, and the five top savers.
 */
module AdminOverview {
  import opened Common
  import opened Records
  import opened Stats
  import opened AdminTables

  /** The headline cards this tab computes itself. */
  datatype Cards = Cards(average: real, recentCount: nat)

  /** Savings created strictly after `now - days`. */
  function SavingsSince(allSavings: seq<SavingWithUser>, now: int, days: nat): (r: seq<SavingWithUser>)
    ensures forall s :: s in r <==> s in allSavings && s.saving.createdAt > now - days * DayMs
  {
    NewerThan(allSavings, SavingCreated, now - days * DayMs)
  }

  /**
   * `totalUsers > 0 ? totalSavings / totalUsers : 0`, and the count of savings
   * created strictly after `now - 7 days`.
   */
  function OverviewCards(totalUsers: nat, totalSavings: real, allSavings: seq<SavingWithUser>, now: int): (r: Cards)
    ensures totalUsers > 0 ==> r.average * (totalUsers as real) == totalSavings
    ensures totalUsers == 0 ==> r.average == 0.0
    ensures r.recentCount <= |allSavings|
    ensures r.recentCount == |allSavings| <==> forall k :: 0 <= k < |allSavings| ==> allSavings[k].saving.createdAt > now - 7 * DayMs
  {
    NewerThanKeepsAll(allSavings, SavingCreated, now - 7 * DayMs);
    Cards(Average(totalSavings, totalUsers), |SavingsSince(allSavings, now, 7)|)
  }

  /** The week's count never exceeds the count of the last thirty days. */
  lemma WeekWithinMonth(totalUsers: nat, totalSavings: real, allSavings: seq<SavingWithUser>, now: int)
    ensures OverviewCards(totalUsers, totalSavings, allSavings, now).recentCount <= |SavingsSince(allSavings, now, 30)|
  {
    NewerThanShrinks(allSavings, SavingCreated, now - 30 * DayMs, now - 7 * DayMs);
  }

  /** A row of the top-savers list. */
  datatype SaverRow = SaverRow(rank: nat, name: string, email: Option<string>, total: real, entries: nat)

  function SaverRowOf(r: Ranked, index: nat): SaverRow {
    var u := r.user;
    SaverRow(index + 1, if TruthyText(u.user.name) then u.user.name.value else "No name",
             u.user.email, r.total, |u.savings|)
  }

  /** Top savers: the five largest totals, ranked from 1. */
  function TopSavers(users: seq<UserWithSavings>): (r: seq<SaverRow>)
    ensures |r| == |TopByTotal(users, 5)|
    ensures forall k :: 0 <= k < |r| ==> r[k] == SaverRowOf(TopByTotal(users, 5)[k], k)
  {
    var top := TopByTotal(users, 5);
    seq(|top|, k requires 0 <= k < |top| => SaverRowOf(top[k], k))
  }

  /**
   * At most five rows, ranked 1, 2, … with the largest total first; each
   * row's total and entry count are those of one user, and no user left out
   * has saved more than a user shown.
   */
  lemma TopSaversRanked(users: seq<UserWithSavings>)
    ensures |TopSavers(users)| == Min(5, |users|)
    ensures forall k :: 0 <= k < |TopSavers(users)| ==> TopSavers(users)[k].rank == k + 1
    ensures forall j, k :: 0 <= j < k < |TopSavers(users)| ==> TopSavers(users)[j].total >= TopSavers(users)[k].total
    ensures forall k :: 0 <= k < |TopSavers(users)| ==>
              exists u :: u in users && TopSavers(users)[k].total == UserTotal(u) && TopSavers(users)[k].entries == |u.savings|
    ensures forall u, k :: u in users && Ranked(u, UserTotal(u)) !in TopByTotal(users, 5) && 0 <= k < |TopSavers(users)| ==>
              TopSavers(users)[k].total >= UserTotal(u)
  {
    var top := TopByTotal(users, 5);
    TopByTotalRanks(users, 5);
    forall k | 0 <= k < |TopSavers(users)|
      ensures exists u :: u in users && TopSavers(users)[k].total == UserTotal(u) && TopSavers(users)[k].entries == |u.savings|
    {
      assert top[k] in top;
      var u := top[k].user;
      assert u in users;
    }
    forall u, k | u in users && Ranked(u, UserTotal(u)) !in top && 0 <= k < |TopSavers(users)|
      ensures TopSavers(users)[k].total >= UserTotal(u)
    {
      assert top[k] in top;
    }
  }
}
