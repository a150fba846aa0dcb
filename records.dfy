/**
 * The rows of the three tables (users, savings, withdrawals), the user
 * record the dashboards receive with its savings attached, and the session.
 */
module Records {
  import opened Common
  import opened Sums

  /** Row identifiers; the database generates them. */
  type Id = nat

  /** A savings or a withdrawal row: both tables have the same columns. */
  datatype Entry = Entry(id: Id, userId: Id, amount: real, description: Option<string>, createdAt: int)

  /** A row of the users table. */
  datatype User = User(
    id: Id,
    name: Option<string>,
    email: Option<string>,
    phone: Option<string>,
    goal: Option<real>,
    frequency: Option<string>,
    role: string)

  /** A user as the dashboards receive it: the row with its savings included. */
  datatype UserWithSavings = UserWithSavings(user: User, savings: seq<Entry>)

  /** `users.find((u) => u.id === id)`. */
  function FindUser(users: seq<UserWithSavings>, id: Id): (r: Option<UserWithSavings>)
    ensures r.Some? ==> r.value in users && r.value.user.id == id
    ensures r.None? <==> forall u :: u in users ==> u.user.id != id
  {
    if |users| == 0 then None
    else if users[0].user.id == id then Some(users[0])
    else FindUser(users[1..], id)
  }

  /** `find` returns the first match: the user at the first index holding the id. */
  lemma {:induction false} FindUserFirst(users: seq<UserWithSavings>, id: Id, k: nat)
    requires k < |users| && users[k].user.id == id
    requires forall j :: 0 <= j < k ==> users[j].user.id != id
    ensures FindUser(users, id) == Some(users[k])
  {
    if k > 0 {
      assert users[0].user.id != id;
      FindUserFirst(users[1..], id, k - 1);
    }
  }

  /** `session.user`: the fields the handlers read. */
  datatype SessionUser = SessionUser(id: Option<Id>, email: Option<string>)

  const AdminRole := "ADMIN"
  const UserRole := "USER"

  function AmountOf(e: Entry): real {
    e.amount
  }

  /** `entries.reduce((sum, e) => sum + e.amount, 0)`. */
  function Total(entries: seq<Entry>): real {
    SumOf(entries, AmountOf)
  }

  /** The total of a user's savings, as every dashboard computes it. */
  function UserTotal(u: UserWithSavings): real {
    Total(u.savings)
  }

  lemma TotalAppend(a: seq<Entry>, b: seq<Entry>)
    ensures Total(a + b) == Total(a) + Total(b)
  {
    SumOfAppend(a, b, AmountOf);
  }

  /** Every user's savings, user after user: the order the dashboards' nested loops visit them in. */
  function Flatten(users: seq<UserWithSavings>): seq<Entry> {
    if |users| == 0 then [] else Flatten(users[..|users| - 1]) + users[|users| - 1].savings
  }

  /** The sum of all users' totals is the total of all their savings together. */
  lemma {:induction false} TotalFlatten(users: seq<UserWithSavings>)
    ensures Total(Flatten(users)) == SumOf(users, UserTotal)
  {
    if |users| > 0 {
      TotalFlatten(users[..|users| - 1]);
      TotalAppend(Flatten(users[..|users| - 1]), users[|users| - 1].savings);
    }
  }

  /** The total of every user's savings (`users.reduce((sum, user) => sum + user total, 0)`). */
  function GrandTotal(users: seq<UserWithSavings>): (r: real)
    ensures r == Total(Flatten(users))
  {
    TotalFlatten(users);
    SumOf(users, UserTotal)
  }

  /** A saving belongs to the flattened list exactly when it belongs to some user's savings. */
  lemma {:induction false} InFlatten(users: seq<UserWithSavings>, e: Entry)
    ensures e in Flatten(users) <==> exists u :: u in users && e in u.savings
  {
    if |users| > 0 {
      var init, last := users[..|users| - 1], users[|users| - 1];
      InFlatten(init, e);
      assert users == init + [last];
      assert forall u :: u in users <==> u in init || u == last;
    }
  }

  /** The entries of one user, in table order (`where: { userId }`). */
  function OwnedBy(entries: seq<Entry>, uid: Id): (r: seq<Entry>)
    ensures |r| <= |entries|
    ensures forall e :: e in r <==> e in entries && e.userId == uid
    decreases |entries|
  {
    if |entries| == 0 then []
    else
      var last := entries[|entries| - 1];
      OwnedBy(entries[..|entries| - 1], uid) + (if last.userId == uid then [last] else [])
  }

  /** The entries of every other user (`deleteMany({ where: { userId } })` keeps these). */
  function NotOwnedBy(entries: seq<Entry>, uid: Id): (r: seq<Entry>)
    ensures |r| <= |entries|
    ensures forall e :: e in r <==> e in entries && e.userId != uid
    decreases |entries|
  {
    if |entries| == 0 then []
    else
      var last := entries[|entries| - 1];
      NotOwnedBy(entries[..|entries| - 1], uid) + (if last.userId != uid then [last] else [])
  }

  /** Removing one user's entries leaves every other user's entries exactly as they were. */
  lemma {:induction false} NotOwnedByKeepsOthers(entries: seq<Entry>, uid: Id, other: Id)
    requires other != uid
    ensures OwnedBy(NotOwnedBy(entries, uid), other) == OwnedBy(entries, other)
    decreases |entries|
  {
    if |entries| > 0 {
      var init, last := entries[..|entries| - 1], entries[|entries| - 1];
      NotOwnedByKeepsOthers(init, uid, other);
      var kept := NotOwnedBy(init, uid);
      if last.userId != uid {
        assert NotOwnedBy(entries, uid) == kept + [last];
        OwnedByAppend(kept, last, other);
      } else {
        assert NotOwnedBy(entries, uid) == kept;
        assert OwnedBy(entries, other) == OwnedBy(init, other);
      }
    }
  }

  /** Appending one entry adds it to its owner's entries only. */
  lemma OwnedByAppend(entries: seq<Entry>, e: Entry, uid: Id)
    ensures OwnedBy(entries + [e], uid) == OwnedBy(entries, uid) + (if e.userId == uid then [e] else [])
  {
    assert (entries + [e])[..|entries|] == entries;
  }

  /** `findUnique({ where: { id } })`. */
  function FindById(users: seq<User>, id: Id): (r: Option<User>)
    ensures r.Some? ==> r.value in users && r.value.id == id
    ensures r.None? <==> forall u :: u in users ==> u.id != id
    decreases |users|
  {
    if |users| == 0 then None
    else if users[0].id == id then Some(users[0])
    else FindById(users[1..], id)
  }

  /** `findUnique({ where: { email } })`. */
  function FindByEmail(users: seq<User>, email: string): (r: Option<User>)
    ensures r.Some? ==> r.value in users && r.value.email == Some(email)
    ensures r.None? <==> forall u :: u in users ==> u.email != Some(email)
    decreases |users|
  {
    if |users| == 0 then None
    else if users[0].email == Some(email) then Some(users[0])
    else FindByEmail(users[1..], email)
  }

  /** The position of the row with a given id, for updates and deletes. */
  function IndexOfId(users: seq<User>, id: Id): (r: Option<nat>)
    ensures r.Some? ==> r.value < |users| && users[r.value].id == id
    ensures r.None? <==> forall u :: u in users ==> u.id != id
    decreases |users|
  {
    if |users| == 0 then None
    else if users[0].id == id then Some(0)
    else
      var r := IndexOfId(users[1..], id);
      if r.Some? then Some(r.value + 1) else None
  }
}

/**
 * The session checks every admin route starts with: 401 without a signed-in
 * caller, 403 unless the caller's row has role "ADMIN".
 */
module Access {
  import opened Common
  import opened Records

  /** Either go on with the handler, or stop with a status and a message. */
  datatype Gate = Proceed | Deny(status: int, message: string)

  /** Whether a table row is an administrator. */
  predicate IsAdminRow(u: Option<User>) {
    u.Some? && u.value.role == AdminRole
  }

  /**
   * The savings and withdrawals routes: `!session?.user?.id` gives 401, then the
   * caller's row is looked up by id and anything but role "ADMIN" gives 403.
   */
  function GateById(session: Option<SessionUser>, users: seq<User>): (g: Gate)
    ensures g.Deny? ==> g.status == 401 || g.status == 403
    ensures g == Deny(401, "Unauthorized") <==> session.None? || session.value.id.None?
    ensures g.Proceed? <==> session.Some? && session.value.id.Some?
                              && IsAdminRow(FindById(users, session.value.id.value))
  {
    if session.None? || session.value.id.None? then Deny(401, "Unauthorized")
    else if !IsAdminRow(FindById(users, session.value.id.value)) then Deny(403, "Forbidden")
    else Proceed
  }

  /**
   * The users and analytics routes: a falsy `session.user.email` gives 401, then
   * the caller's row is looked up by email and a missing or non-admin row gives 403.
   */
  function GateByEmail(session: Option<SessionUser>, users: seq<User>): (g: Gate)
    ensures g.Deny? ==> g.status == 401 || g.status == 403
    ensures g == Deny(401, "Unauthorized") <==> !(session.Some? && TruthyText(session.value.email))
    ensures g.Proceed? <==> session.Some? && TruthyText(session.value.email)
                              && IsAdminRow(FindByEmail(users, session.value.email.value))
  {
    if !(session.Some? && TruthyText(session.value.email)) then Deny(401, "Unauthorized")
    else if !IsAdminRow(FindByEmail(users, session.value.email.value)) then Deny(403, "Forbidden")
    else Proceed
  }
}
