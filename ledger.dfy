/**
 * The balance rule of the withdrawals route: a user's available balance is the
 * sum of their savings minus the sum of their withdrawals, each sum taken by a
 * database aggregate that yields `null` when the user has no rows.
 */
module Ledger {
  import opened Common
  import opened Sums
  import opened Records

  /** `aggregate({ _sum: { amount: true } })._sum.amount`: `null` over no rows. */
  function AggregateSum(rows: seq<Entry>): (r: Option<real>)
    ensures r.None? <==> rows == []
    ensures r.Some? ==> r.value == Total(rows)
  {
    if rows == [] then None else Some(Total(rows))
  }

  /** `x || 0` on a nullable number. */
  function OrZero(x: Option<real>): (r: real)
    ensures x.Some? ==> r == x.value
    ensures x.None? ==> r == 0.0
  {
    if x.Some? && x.value != 0.0 then x.value else 0.0
  }

  /** `available = (savings || 0) - (withdrawals || 0)` for one user. */
  function Available(savings: seq<Entry>, withdrawals: seq<Entry>, uid: Id): real {
    OrZero(AggregateSum(OwnedBy(savings, uid))) - OrZero(AggregateSum(OwnedBy(withdrawals, uid)))
  }

  /** The null coalescing changes nothing: available is the plain difference of the two totals. */
  lemma AvailableIsNet(savings: seq<Entry>, withdrawals: seq<Entry>, uid: Id)
    ensures Available(savings, withdrawals, uid) == Total(OwnedBy(savings, uid)) - Total(OwnedBy(withdrawals, uid))
  {
    assert Total([]) == 0.0;
  }

  /** A saving raises its owner's balance by its amount and no one else's. */
  lemma SavingRaisesAvailable(savings: seq<Entry>, withdrawals: seq<Entry>, e: Entry, uid: Id)
    ensures Available(savings + [e], withdrawals, uid)
         == Available(savings, withdrawals, uid) + (if uid == e.userId then e.amount else 0.0)
  {
    AvailableIsNet(savings, withdrawals, uid);
    AvailableIsNet(savings + [e], withdrawals, uid);
    OwnedByAppend(savings, e, uid);
    TotalAppend(OwnedBy(savings, uid), if e.userId == uid then [e] else []);
    SumOfSingle(e, AmountOf);
  }

  /** A withdrawal lowers its owner's balance by its amount and no one else's. */
  lemma WithdrawalLowersAvailable(savings: seq<Entry>, withdrawals: seq<Entry>, w: Entry, uid: Id)
    ensures Available(savings, withdrawals + [w], uid)
         == Available(savings, withdrawals, uid) - (if uid == w.userId then w.amount else 0.0)
  {
    AvailableIsNet(savings, withdrawals, uid);
    AvailableIsNet(savings, withdrawals + [w], uid);
    OwnedByAppend(withdrawals, w, uid);
    TotalAppend(OwnedBy(withdrawals, uid), if w.userId == uid then [w] else []);
    SumOfSingle(w, AmountOf);
  }

  /**
   * The route accepts a withdrawal unless `amount > available`; whatever was
   * accepted leaves the owner's balance non-negative, and taking exactly the
   * available balance leaves exactly zero.
   */
  lemma AcceptedWithdrawalKeepsBalance(savings: seq<Entry>, withdrawals: seq<Entry>, w: Entry)
    requires !(w.amount > Available(savings, withdrawals, w.userId))
    ensures Available(savings, withdrawals + [w], w.userId) >= 0.0
    ensures w.amount == Available(savings, withdrawals, w.userId) ==> Available(savings, withdrawals + [w], w.userId) == 0.0
  {
    WithdrawalLowersAvailable(savings, withdrawals, w, w.userId);
  }

  /**
   * The route only rejects a falsy amount, so a negative amount passes both
   * checks whenever the balance is not already negative, and the
   * "withdrawal" then raises the owner's balance.
   */
  lemma NegativeWithdrawalRaisesBalance(savings: seq<Entry>, withdrawals: seq<Entry>, w: Entry)
    requires w.amount < 0.0 && Available(savings, withdrawals, w.userId) >= 0.0
    ensures TruthyNumberField(Value(w.amount)) && !(w.amount > Available(savings, withdrawals, w.userId))
    ensures Available(savings, withdrawals + [w], w.userId) > Available(savings, withdrawals, w.userId)
  {
    WithdrawalLowersAvailable(savings, withdrawals, w, w.userId);
  }

  /** Removing one user's savings leaves every other user's balance unchanged. */
  lemma DeletingSavingsKeepsOthers(savings: seq<Entry>, withdrawals: seq<Entry>, uid: Id, other: Id)
    requires other != uid
    ensures Available(NotOwnedBy(savings, uid), withdrawals, other) == Available(savings, withdrawals, other)
  {
    NotOwnedByKeepsOthers(savings, uid, other);
  }
}
