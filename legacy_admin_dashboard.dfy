/**
 * The older admin dashboard (components/dashboard): the savings total, a
 * row per user, the ten most recent savings across all users, and the form
 * that adds a saving.
 */
module LegacyAdminDashboard {
  import opened Common
  import opened Sums
  import opened Text
  import opened Records
  import opened Sorting

  /** One row of the users table. */
  datatype SummaryRow = SummaryRow(name: string, email: Option<string>, total: real, entries: nat)

  function SummaryRowOf(u: UserWithSavings): SummaryRow {
    SummaryRow(if TruthyText(u.user.name) then u.user.name.value else "No name", u.user.email, UserTotal(u), |u.savings|)
  }

  /** The users table: one row per user, in order, with the user's total and number of savings. */
  function SummaryRows(users: seq<UserWithSavings>): (r: seq<SummaryRow>)
    ensures |r| == |users|
    ensures forall k :: 0 <= k < |users| ==> r[k].total == UserTotal(users[k]) && r[k].entries == |users[k].savings|
  {
    seq(|users|, k requires 0 <= k < |users| => SummaryRowOf(users[k]))
  }

  function RowTotal(r: SummaryRow): real { r.total }

  /** The rows' totals add up to the dashboard's savings total. */
  lemma {:induction false} SummaryRowsAddUp(users: seq<UserWithSavings>)
    ensures SumOf(SummaryRows(users), RowTotal) == GrandTotal(users)
  {
    if |users| > 0 {
      var init := users[..|users| - 1];
      SummaryRowsAddUp(init);
      assert SummaryRows(users)[..|users| - 1] == SummaryRows(init);
    }
  }

  /** A saving with its owner attached (`{ ...saving, user }`). */
  datatype Tagged = Tagged(saving: Entry, owner: UserWithSavings)

  function TaggedCreated(t: Tagged): real { t.saving.createdAt as real }

  function TagAll(u: UserWithSavings): (r: seq<Tagged>)
    ensures |r| == |u.savings| && forall k :: 0 <= k < |r| ==> r[k] == Tagged(u.savings[k], u)
  {
    seq(|u.savings|, k requires 0 <= k < |u.savings| => Tagged(u.savings[k], u))
  }

  /** `users.flatMap((user) => user.savings.map((saving) => ({ ...saving, user })))`. */
  function FlatTagged(users: seq<UserWithSavings>): (r: seq<Tagged>)
    ensures forall t :: t in r ==> t.owner in users && t.saving in t.owner.savings
    ensures |r| == |Flatten(users)|
  {
    if |users| == 0 then []
    else FlatTagged(users[..|users| - 1]) + TagAll(users[|users| - 1])
  }

  /** A pair is in the flattened list exactly when its saving belongs to its owner, one of the users. */
  lemma {:induction false} FlatTaggedMembers(users: seq<UserWithSavings>, t: Tagged)
    ensures t in FlatTagged(users) <==> t.owner in users && t.saving in t.owner.savings
  {
    if |users| > 0 {
      var init, last := users[..|users| - 1], users[|users| - 1];
      FlatTaggedMembers(init, t);
      assert users == init + [last];
      assert t.owner in users <==> t.owner in init || t.owner == last;
      if t.owner == last && t.saving in last.savings {
        var k :| 0 <= k < |last.savings| && last.savings[k] == t.saving;
        assert TagAll(last)[k] == t;
      }
    }
  }

  /** Recent transactions: newest first, at most 10. */
  function RecentTransactions(users: seq<UserWithSavings>): seq<Tagged> {
    TopN(FlatTagged(users), 10, TaggedCreated)
  }

  /**
   * At most ten rows, newest first, each a saving of its owner, and no saving
   * left out is newer than one shown.
   */
  lemma RecentTransactionsRanks(users: seq<UserWithSavings>)
    ensures |RecentTransactions(users)| == Min(10, |Flatten(users)|)
    ensures SortedDesc(RecentTransactions(users), TaggedCreated)
    ensures forall x, y :: x in RecentTransactions(users) && y in multiset(FlatTagged(users)) - multiset(RecentTransactions(users)) ==>
              TaggedCreated(x) >= TaggedCreated(y)
  {
    TopNRanks(FlatTagged(users), 10, TaggedCreated);
  }

  /** No saving of any user that is not shown is newer than a saving shown. */
  lemma RecentNoneNewerLeftOut(users: seq<UserWithSavings>, x: Tagged, u: UserWithSavings, e: Entry)
    requires x in RecentTransactions(users)
    requires u in users && e in u.savings && Tagged(e, u) !in RecentTransactions(users)
    ensures x.saving.createdAt >= e.createdAt
  {
    FlatTaggedMembers(users, Tagged(e, u));
    TopNOutranks(FlatTagged(users), 10, TaggedCreated);
    assert TaggedCreated(x) >= TaggedCreated(Tagged(e, u));
  }

  lemma RecentRowBelongsToOwner(users: seq<UserWithSavings>, t: Tagged)
    requires t in RecentTransactions(users)
    ensures t.owner in users && t.saving in t.owner.savings
  {
    TopNFromInput(FlatTagged(users), 10, TaggedCreated, t);
  }

  /** How the POST came back. */
  datatype Outcome = Ok | NotOk | Threw

  datatype SavingRequest = SavingRequest(userId: Id, amount: real, description: Option<string>)

  class AddSavingForm {
    var selectedUserId: Option<Id>
    var amount: string
    var description: string
    var loading: bool

    constructor ()
      ensures selectedUserId.None? && amount == "" && description == "" && !loading
    {
      selectedUserId, amount, description, loading := None, "", "", false;
    }

    /**
     * `handleAddSaving`: without a selected user or an amount nothing is
     * sent and nothing changes. Otherwise the request carries the parsed
     * amount and the trimmed description (null when empty); on success the
     * whole form is cleared, user included; `loading` ends false whatever
     * happened.
     */
    method HandleAddSaving(outcome: Outcome, parseFloat: string -> real) returns (request: Option<SavingRequest>)
      modifies this
      ensures old(selectedUserId).None? || old(amount) == "" ==> request.None? && unchanged(this)
      ensures old(selectedUserId).Some? && old(amount) != "" ==>
                && request == Some(SavingRequest(old(selectedUserId).value, parseFloat(old(amount)), TrimOrNull(old(description))))
                && !loading
                && (outcome.Ok? ==> selectedUserId.None? && amount == "" && description == "")
                && (!outcome.Ok? ==> selectedUserId == old(selectedUserId) && amount == old(amount) && description == old(description))
    {
      if selectedUserId.None? || amount == "" {
        return None;
      }
      loading := true;
      request := Some(SavingRequest(selectedUserId.value, parseFloat(amount), TrimOrNull(description)));
      if outcome.Ok? {
        amount := "";
        description := "";
        selectedUserId := None;
      }
      loading := false;
    }
  }
}
