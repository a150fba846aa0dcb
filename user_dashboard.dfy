/** The signed-in user's own dashboard: total saved, goal progress, the running-total chart and the average deposit. */
module UserDashboard {
  import opened Common
  import opened Sums
  import opened Records
  import Stats

  /** One point of the savings chart; the date label is kept as the creation time. */
  datatype ChartPoint = ChartPoint(createdAt: int, total: real, amount: real)

  /** `savings.slice().reverse()`: a reversed copy, leaving the user's list as it is. */
  function Reverse<T>(s: seq<T>): (r: seq<T>)
    ensures |r| == |s|
  {
    if |s| == 0 then [] else [s[|s| - 1]] + Reverse(s[..|s| - 1])
  }

  /** The reversed copy holds the `k`-th element from the end at position `k`. */
  lemma {:induction false} ReverseIndex<T>(s: seq<T>)
    ensures forall k :: 0 <= k < |s| ==> Reverse(s)[k] == s[|s| - 1 - k]
  {
    if |s| > 0 {
      var n := |s| - 1;
      ReverseIndex(s[..n]);
      forall k | 0 <= k < |s| ensures Reverse(s)[k] == s[n - k] {
        if k > 0 {
          assert Reverse(s)[k] == Reverse(s[..n])[k - 1];
        }
      }
    }
  }

  /** The reversed copy has the same elements, counted with multiplicity. */
  lemma {:induction false} ReverseSameElements<T>(s: seq<T>)
    ensures multiset(Reverse(s)) == multiset(s)
  {
    if |s| > 0 {
      var n := |s| - 1;
      ReverseSameElements(s[..n]);
      assert s == s[..n] + [s[n]];
    }
  }

  /** The total of the user's savings, 0 when there are none. */
  function TotalSaved(savings: seq<Entry>): (r: real)
    ensures savings == [] ==> r == 0.0
    ensures (forall e :: e in savings ==> e.amount >= 0.0) ==> r >= 0.0
  {
    SumOfNonNegativeEntries(savings);
    Total(savings)
  }

  lemma SumOfNonNegativeEntries(savings: seq<Entry>)
    ensures (forall e :: e in savings ==> e.amount >= 0.0) ==> Total(savings) >= 0.0
  {
    if forall e :: e in savings ==> e.amount >= 0.0 {
      assert forall i :: 0 <= i < |savings| ==> AmountOf(savings[i]) >= 0.0 by {
        forall i | 0 <= i < |savings| ensures AmountOf(savings[i]) >= 0.0 {
          assert savings[i] in savings;
        }
      }
      SumOfNonNegative(savings, AmountOf);
    }
  }

  /** The goal progress card: uncapped, so it may pass 100. */
  function GoalProgress(savings: seq<Entry>, goal: Option<real>): (r: real)
    ensures !TruthyNumber(goal) ==> r == 0.0
    ensures TruthyNumber(goal) ==> r * goal.value == TotalSaved(savings) * 100.0
  {
    Stats.Progress(TotalSaved(savings), goal)
  }

  /** Savings beyond the goal show a progress over 100. */
  lemma ProgressNotCapped(savings: seq<Entry>, goal: real)
    requires goal > 0.0 && TotalSaved(savings) > goal
    ensures GoalProgress(savings, Some(goal)) > 100.0
  {
    var p := GoalProgress(savings, Some(goal));
    assert p * goal == TotalSaved(savings) * 100.0;
    assert (p - 100.0) * goal > 0.0;
  }

  /** The average-deposit card: the total over the number of deposits, 0 with none. */
  function AverageDeposit(savings: seq<Entry>): (r: real)
    ensures |savings| > 0 ==> r * (|savings| as real) == TotalSaved(savings)
    ensures savings == [] ==> r == 0.0
  {
    Stats.Average(TotalSaved(savings), |savings|)
  }

  /** Adding the next amount to the running total so far gives the total of one more entry. */
  lemma RunningTotalStep(walk: seq<Entry>, i: nat)
    requires i < |walk|
    ensures Total(walk[..i + 1]) == Total(walk[..i]) + walk[i].amount
    ensures i == 0 ==> Total(walk[..i + 1]) == walk[i].amount
  {
    assert walk[..i + 1] == walk[..i] + [walk[i]];
    TotalAppend(walk[..i], [walk[i]]);
    SumOfSingle(walk[i], AmountOf);
  }

  /** Each point's total is its predecessor's plus its own amount; the last is the whole total. */
  lemma RunningTotalFacts(points: seq<ChartPoint>, walk: seq<Entry>, savings: seq<Entry>)
    requires walk == Reverse(savings) && |points| == |walk|
    requires forall k :: 0 <= k < |points| ==> points[k].amount == walk[k].amount && points[k].total == Total(walk[..k + 1])
    ensures |points| > 0 ==> points[0].total == points[0].amount
    ensures forall k :: 0 < k < |points| ==> points[k].total == points[k - 1].total + points[k].amount
    ensures |points| > 0 ==> points[|points| - 1].total == TotalSaved(savings)
  {
    forall k | 0 <= k < |points| ensures k == 0 ==> points[k].total == points[k].amount
      ensures k > 0 ==> points[k].total == points[k - 1].total + points[k].amount
    {
      RunningTotalStep(walk, k);
      if k > 0 {
        assert walk[..k] == walk[..k - 1 + 1];
      }
    }
    if |walk| > 0 {
      assert walk[..|walk|] == walk;
      ReverseSameElements(savings);
      SumOfPermutation(walk, savings, AmountOf);
    }
  }

  /**
   * The chart series: the savings walked oldest-listed-last first (a reversed
   * copy), each point carrying its amount and the running total so far.
   */
  method ChartData(savings: seq<Entry>) returns (points: seq<ChartPoint>)
    ensures |points| == |savings|
    ensures forall k :: 0 <= k < |points| ==>
              points[k].amount == savings[|savings| - 1 - k].amount
              && points[k].createdAt == savings[|savings| - 1 - k].createdAt
              && points[k].total == Total(Reverse(savings)[..k + 1])
    ensures |points| > 0 ==> points[0].total == points[0].amount
    ensures forall k :: 0 < k < |points| ==> points[k].total == points[k - 1].total + points[k].amount
    ensures |points| > 0 ==> points[|points| - 1].total == TotalSaved(savings)
  {
    var walk := Reverse(savings);
    ReverseIndex(savings);
    points := [];
    var i := 0;
    while i < |walk|
      invariant 0 <= i <= |walk|
      invariant |points| == i
      invariant forall k :: 0 <= k < i ==>
                  points[k].amount == walk[k].amount && points[k].createdAt == walk[k].createdAt
                  && points[k].total == Total(walk[..k + 1])
    {
      var saving := walk[i];
      var runningTotal := if |points| > 0 then points[|points| - 1].total + saving.amount else saving.amount;
      RunningTotalStep(walk, i);
      if i > 0 {
        assert walk[..i] == walk[..i - 1 + 1];
      }
      points := points + [ChartPoint(saving.createdAt, runningTotal, saving.amount)];
      i := i + 1;
    }
    RunningTotalFacts(points, walk, savings);
  }
}
