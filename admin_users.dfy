/**
 * The admin's users tab: one table row per listed user with the user's
 * total, goal progress and the fallbacks shown for missing details, and the
 * edit dialog each row opens.
 */
module AdminUsers {
  import opened Common
  import opened Records
  import opened Stats
  import opened AdminTables
  import UserDashboard

  /**
   * What one row shows. `goal`, `frequency` and `progress` are `None` where
   * the cell shows "-".
   */
  datatype UserRow = UserRow(
    name: string,
    entries: nat,
    email: Option<string>,
    phone: string,
    goal: Option<real>,
    frequency: Option<string>,
    total: real,
    progress: Option<real>)

  /**
   * A row of the table. The goal cell tests `goal != null`, while the
   * progress cell tests the goal's truthiness, so a goal of 0 is shown but
   * has no progress bar.
   */
  function RowOf(u: UserWithSavings): (r: UserRow)
    ensures r.total == Total(u.savings) && r.entries == |u.savings|
    ensures r.name == (if TruthyText(u.user.name) then u.user.name.value else "No name")
    ensures r.phone == (if TruthyText(u.user.phone) then u.user.phone.value else "No phone")
    ensures r.goal.None? <==> u.user.goal.None?
    ensures r.frequency.None? <==> !TruthyText(u.user.frequency)
    ensures r.progress.None? <==> !TruthyNumber(u.user.goal)
    ensures r.progress.Some? ==> r.progress.value <= 100.0 && r.progress.value == CappedProgress(r.total, u.user.goal)
  {
    var total := UserTotal(u);
    UserRow(
      if TruthyText(u.user.name) then u.user.name.value else "No name",
      |u.savings|,
      u.user.email,
      if TruthyText(u.user.phone) then u.user.phone.value else "No phone",
      u.user.goal,
      if TruthyText(u.user.frequency) then u.user.frequency else None,
      total,
      if TruthyNumber(u.user.goal) then Some(CappedProgress(total, u.user.goal)) else None)
  }

  /** `filteredUsers.map(row)`. */
  function Rows(filteredUsers: seq<UserWithSavings>): (r: seq<UserRow>)
    ensures |r| == |filteredUsers|
    ensures forall k :: 0 <= k < |r| ==> r[k] == RowOf(filteredUsers[k])
  {
    seq(|filteredUsers|, k requires 0 <= k < |filteredUsers| => RowOf(filteredUsers[k]))
  }

  /** With savings and a goal that are not negative, a row's progress lies between 0 and 100. */
  lemma RowProgressBounds(u: UserWithSavings)
    requires forall e :: e in u.savings ==> e.amount >= 0.0
    requires u.user.goal.Some? ==> u.user.goal.value >= 0.0
    ensures RowOf(u).progress.Some? ==> 0.0 <= RowOf(u).progress.value <= 100.0
  {
    UserDashboard.SumOfNonNegativeEntries(u.savings);
    CappedProgressBounds(UserTotal(u), u.user.goal);
  }

  /** A goal of 0 is displayed in the goal column, yet its progress cell shows "-". */
  lemma ZeroGoalShownWithoutProgress(u: UserWithSavings)
    requires u.user.goal == Some(0.0)
    ensures RowOf(u).goal == Some(0.0) && RowOf(u).progress.None?
  {
  }

  function UserId(u: UserWithSavings): Id { u.user.id }

  /**
   * The edit button of a row stores the whole user (`setEditingUser(user)`)
   * and opens that row's dialog; no other row's dialog is open.
   */
  method EditUser(dialog: EditDialog<UserWithSavings>, u: UserWithSavings)
    modifies dialog
    ensures dialog.editing == Some(u) && dialog.show
    ensures forall id :: dialog.OpenFor(id, UserId) <==> id == u.user.id
  {
    dialog.ClickEdit(u, UserId);
  }
}
