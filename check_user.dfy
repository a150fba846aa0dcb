/**
 * GET /api/auth/callback/check-user: after sign-in, sends the user to the
 * login page, the dashboard or the profile-completion page.
 */
module CheckUser {
  import opened Common
  import opened Records
  import Store

  datatype Target = Login | Dashboard | SignupComplete

  function PathOf(t: Target): string {
    match t
    case Login => "/login"
    case Dashboard => "/dashboard"
    case SignupComplete => "/signup/complete"
  }

  /** The profile counts as complete when any of phone, goal or frequency is truthy (a goal of 0 is not). */
  predicate ProfileComplete(u: User) {
    TruthyText(u.phone) || TruthyNumber(u.goal) || TruthyText(u.frequency)
  }

  /**
   * The redirect decision. `failed` stands for an error thrown while reading
   * the session or the user row, which the handler turns into a redirect to
   * the login page.
   */
  function Decide(session: Option<SessionUser>, users: seq<User>, failed: bool): (t: Target)
    ensures failed ==> t == Login
    ensures (session.None? || session.value.id.None?) ==> t == Login
    ensures session.Some? && session.value.id.Some? && (forall u :: u in users ==> u.id != session.value.id.value) ==> t == Login
    ensures t == Dashboard <==>
              && !failed && session.Some? && session.value.id.Some?
              && FindById(users, session.value.id.value).Some?
              && ProfileComplete(FindById(users, session.value.id.value).value)
    ensures t == SignupComplete <==>
              && !failed && session.Some? && session.value.id.Some?
              && FindById(users, session.value.id.value).Some?
              && !ProfileComplete(FindById(users, session.value.id.value).value)
  {
    if failed || session.None? || session.value.id.None? then Login
    else
      var row := FindById(users, session.value.id.value);
      if row.None? then Login
      else if ProfileComplete(row.value) then Dashboard
      else SignupComplete
  }

  /** The only paths the callback redirects to. */
  lemma DecideTargets(session: Option<SessionUser>, users: seq<User>, failed: bool)
    ensures PathOf(Decide(session, users, failed)) in {"/login", "/dashboard", "/signup/complete"}
  {
  }

  /** With unique ids, the row found for an id is the one row carrying it. */
  lemma {:induction false} FindByIdUnique(users: seq<User>, i: nat)
    requires i < |users| && Store.UniqueIds(users)
    ensures FindById(users, users[i].id) == Some(users[i])
  {
    var r := FindById(users, users[i].id);
    var k :| 0 <= k < |users| && users[k] == r.value;
    assert k == i;
  }

  /**
   * Once the profile form has stored a non-empty phone on a user's row, the
   * callback sends that user to the dashboard.
   */
  lemma CompletedProfileGoesToDashboard(users: seq<User>, i: nat, phone: string, session: SessionUser)
    requires i < |users| && Store.UniqueIds(users)
    requires users[i].phone == Some(phone) && phone != ""
    requires session.id == Some(users[i].id)
    ensures Decide(Some(session), users, false) == Dashboard
  {
    FindByIdUnique(users, i);
  }

  /** A row with goal 0 and no phone or frequency is sent to the profile-completion page. */
  lemma ZeroGoalIsIncomplete(users: seq<User>, i: nat, session: SessionUser)
    requires i < |users| && Store.UniqueIds(users)
    requires users[i].phone.None? && users[i].goal == Some(0.0) && users[i].frequency == Some("")
    requires session.id == Some(users[i].id)
    ensures Decide(Some(session), users, false) == SignupComplete
  {
    FindByIdUnique(users, i);
  }
}
