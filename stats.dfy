/** The small numeric rules the dashboards share: averages, goal progress and the rounded active rate. */
module Stats {
  import opened Common

  /** `count > 0 ? total / count : 0`. */
  function Average(total: real, count: nat): (r: real)
    ensures count > 0 ==> r * (count as real) == total
    ensures count == 0 ==> r == 0.0
  {
    if count > 0 then total / (count as real) else 0.0
  }

  /** `goal ? (total / goal) * 100 : 0`, with no cap. */
  function Progress(total: real, goal: Option<real>): (r: real)
    ensures !TruthyNumber(goal) ==> r == 0.0
    ensures TruthyNumber(goal) ==> r * goal.value == total * 100.0
  {
    if TruthyNumber(goal) then total / goal.value * 100.0 else 0.0
  }

  /** `goal ? Math.min((total / goal) * 100, 100) : 0`. */
  function CappedProgress(total: real, goal: Option<real>): (r: real)
    ensures r <= 100.0
    ensures r == Progress(total, goal) || (r == 100.0 && Progress(total, goal) > 100.0)
    ensures !TruthyNumber(goal) ==> r == 0.0
  {
    if TruthyNumber(goal) then RealMin(Progress(total, goal), 100.0) else 0.0
  }

  function RealMin(a: real, b: real): real {
    if a <= b then a else b
  }

  /** Saved amounts and a goal that are not negative give a progress between 0 and 100. */
  lemma CappedProgressBounds(total: real, goal: Option<real>)
    requires total >= 0.0 && (goal.Some? ==> goal.value >= 0.0)
    ensures 0.0 <= CappedProgress(total, goal) <= 100.0
  {
    if TruthyNumber(goal) {
      assert goal.value > 0.0;
      assert total / goal.value >= 0.0;
    }
  }

  /** The goal is reached (total at least the goal) exactly when the capped progress shows 100. */
  lemma CappedProgressFull(total: real, goal: real)
    requires goal > 0.0
    ensures CappedProgress(total, Some(goal)) == 100.0 <==> total >= goal
  {
    var p := Progress(total, Some(goal));
    assert p * goal == total * 100.0;
    if total >= goal {
      assert p * goal >= 100.0 * goal;
    } else {
      assert p * goal < 100.0 * goal;
    }
  }

  /** `Math.round`: the nearest integer, halves rounded up. */
  function Round(x: real): (r: int)
    ensures r as real <= x + 0.5 < r as real + 1.0
  {
    (x + 0.5).Floor
  }

  /** `total > 0 ? Math.round((active / total) * 100) : 0`. */
  function ActiveRate(active: nat, total: nat): (r: int)
    ensures total == 0 ==> r == 0
    ensures total > 0 ==> r as real <= active as real / total as real * 100.0 + 0.5 < r as real + 1.0
  {
    if total > 0 then Round(active as real / total as real * 100.0) else 0
  }

  /** A share of a positive whole lies between nothing and all of it. */
  lemma ShareBounds(part: real, whole: real)
    requires 0.0 <= part <= whole && whole > 0.0
    ensures 0.0 <= part / whole <= 1.0
  {
  }

  /** With no more active users than users, the rate is a percentage. */
  lemma ActiveRateBounds(active: nat, total: nat)
    requires active <= total
    ensures 0 <= ActiveRate(active, total) <= 100
    ensures total > 0 && active == total ==> ActiveRate(active, total) == 100
    ensures active == 0 ==> ActiveRate(active, total) == 0
  {
    if total > 0 {
      var ratio := active as real / total as real;
      ShareBounds(active as real, total as real);
      var r := Round(ratio * 100.0);
      assert ActiveRate(active, total) == r;
      if active == total {
        assert ratio == 1.0;
      }
    }
  }
}
