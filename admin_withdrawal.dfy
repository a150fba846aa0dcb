/**
 * The admin's withdrawal form: the available balance it shows for the
 * selected user, when its submit button is enabled, and what submitting does
 * to the form.
 */
module AdminWithdrawal {
  import opened Common
  import opened Text
  import opened Records
  import opened Ledger
  import opened Sums

  /** `getUserAvailable`: the user's savings total less the total of the withdrawals currently loaded. */
  function UserAvailable(user: UserWithSavings, loaded: seq<Entry>): real {
    UserTotal(user) - Total(loaded)
  }

  /** The balance shown: that of the selected user, 0 when none is selected or the id matches no user. */
  function SelectedAvailable(users: seq<UserWithSavings>, selected: Option<Id>, loaded: seq<Entry>): (r: real)
    ensures selected.None? ==> r == 0.0
    ensures selected.Some? && FindUser(users, selected.value).None? ==> r == 0.0
    ensures selected.Some? && FindUser(users, selected.value).Some? ==>
              r == UserTotal(FindUser(users, selected.value).value) - Total(loaded)
  {
    if selected.None? then 0.0
    else
      var user := FindUser(users, selected.value);
      if user.None? then 0.0 else UserAvailable(user.value, loaded)
  }

  /**
   * When the loaded withdrawals are the user's withdrawals and the user's
   * savings are its rows in the savings table, each in any order (the GETs
   * return them newest first), the form shows the same balance the
   * withdrawal route computes.
   */
  lemma FormAgreesWithRoute(user: UserWithSavings, savings: seq<Entry>, withdrawals: seq<Entry>, loaded: seq<Entry>)
    requires multiset(user.savings) == multiset(OwnedBy(savings, user.user.id))
    requires multiset(loaded) == multiset(OwnedBy(withdrawals, user.user.id))
    ensures UserAvailable(user, loaded) == Available(savings, withdrawals, user.user.id)
  {
    SumOfPermutation(user.savings, OwnedBy(savings, user.user.id), AmountOf);
    SumOfPermutation(loaded, OwnedBy(withdrawals, user.user.id), AmountOf);
    AvailableIsNet(savings, withdrawals, user.user.id);
  }

  /** The submit button's `disabled`: loading, no user, no amount, or an amount above the balance shown. */
  predicate SubmitDisabled(loading: bool, selected: Option<Id>, amount: string, available: real, toNumber: string -> real) {
    loading || selected.None? || amount == "" || toNumber(amount) > available
  }

  /** An amount equal to the balance shown leaves the button enabled. */
  lemma WholeBalanceEnabled(selected: Id, amount: string, available: real, toNumber: string -> real)
    requires amount != "" && toNumber(amount) == available
    ensures !SubmitDisabled(false, Some(selected), amount, available, toNumber)
  {
  }

  /**
   * While the form's balance agrees with the route's, any amount the button
   * lets through also passes the route's insufficient-funds check.
   */
  lemma EnabledSubmitPassesRoute(users: seq<UserWithSavings>, id: Id, amount: string, toNumber: string -> real,
                                 savings: seq<Entry>, withdrawals: seq<Entry>, loaded: seq<Entry>)
    requires FindUser(users, id).Some?
    requires multiset(FindUser(users, id).value.savings) == multiset(OwnedBy(savings, id))
    requires multiset(loaded) == multiset(OwnedBy(withdrawals, id))
    requires !SubmitDisabled(false, Some(id), amount, SelectedAvailable(users, Some(id), loaded), toNumber)
    ensures !(toNumber(amount) > Available(savings, withdrawals, id))
  {
    FormAgreesWithRoute(FindUser(users, id).value, savings, withdrawals, loaded);
  }

  /** How the POST came back: an ok response, an error response with its `error` text, or a thrown fetch. */
  datatype Outcome = Ok | Refused(error: Option<string>) | Threw

  /** The body the form posts. */
  datatype WithdrawRequest = WithdrawRequest(userId: Id, amount: real, description: Option<string>)

  /** The toast text for each outcome. */
  function Notice(outcome: Outcome): (r: string)
    ensures outcome.Ok? ==> r == "Withdrawal processed."
    ensures outcome.Threw? ==> r == "Failed to process withdrawal. Please try again."
    ensures outcome.Refused? && TruthyText(outcome.error) ==> r == outcome.error.value
    ensures outcome.Refused? && !TruthyText(outcome.error) ==> r == "Failed to process withdrawal."
  {
    match outcome
    case Ok => "Withdrawal processed."
    case Refused(error) => if TruthyText(error) then error.value else "Failed to process withdrawal."
    case Threw => "Failed to process withdrawal. Please try again."
  }

  class WithdrawForm {
    var selectedUserId: Option<Id>
    var amount: string
    var description: string
    /** The withdrawals loaded for the selected user. */
    var withdrawals: seq<Entry>
    var loading: bool

    constructor ()
      ensures selectedUserId.None? && amount == "" && description == "" && withdrawals == [] && !loading
    {
      selectedUserId, amount, description, withdrawals, loading := None, "", "", [], false;
    }

    /**
     * `handleWithdraw`: without a selected user or an amount nothing is sent
     * and nothing changes. Otherwise the request carries the parsed amount and
     * the trimmed description (null when empty); on success the amount and
     * description are cleared and the user stays selected; `loading` ends
     * false whatever happened.
     */
    method HandleWithdraw(outcome: Outcome, parseFloat: string -> real) returns (request: Option<WithdrawRequest>, notice: Option<string>)
      modifies this
      ensures request.Some? <==> old(selectedUserId).Some? && old(amount) != ""
      ensures request.None? ==> notice.None? && unchanged(this)
      ensures request.Some? ==>
                request.value == WithdrawRequest(old(selectedUserId).value, parseFloat(old(amount)), TrimOrNull(old(description)))
      ensures request.Some? ==> notice == Some(Notice(outcome)) && !loading
      ensures selectedUserId == old(selectedUserId) && withdrawals == old(withdrawals)
      ensures request.Some? && outcome.Ok? ==> amount == "" && description == ""
      ensures request.None? || !outcome.Ok? ==> amount == old(amount) && description == old(description)
    {
      if selectedUserId.None? || amount == "" {
        return None, None;
      }
      loading := true;
      request := Some(WithdrawRequest(selectedUserId.value, parseFloat(amount), TrimOrNull(description)));
      if outcome.Ok? {
        amount := "";
        description := "";
      }
      notice := Some(Notice(outcome));
      loading := false;
    }
  }
}
