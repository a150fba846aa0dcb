/**
 * The three tables behind the API routes, with each admin and user route
 * handler as a method. Each handler runs as one atomic step; database
 * errors the handlers catch become status 500 with the route's message.
 */
module Store {
  import opened Common
  import opened Records
  import opened Access
  import opened Ledger
  import opened Sorting

  /** What a handler answers: success, or an error status with its message. */
  datatype Reply = Success | Failure(status: int, error: string)

  function Ids(users: seq<User>): set<Id> {
    set u | u in users :: u.id
  }

  ghost predicate UniqueIds(users: seq<User>) {
    forall i, j :: 0 <= i < j < |users| ==> users[i].id != users[j].id
  }

  /** The email column is unique (several rows may leave it null). */
  ghost predicate UniqueEmails(users: seq<User>) {
    forall i, j :: 0 <= i < j < |users| && users[i].email.Some? ==> users[i].email != users[j].email
  }

  /** Every row's `userId` names an existing user (the relations' foreign keys). */
  ghost predicate Owned(entries: seq<Entry>, users: seq<User>) {
    forall e :: e in entries ==> e.userId in Ids(users)
  }

  /** The creation time of a row, as the sort key of `orderBy: { createdAt: "desc" }`. */
  function CreatedKey(e: Entry): real {
    e.createdAt as real
  }

  /** Prisma's update of a nullable column: `undefined` leaves it, `null` clears it, a value sets it. */
  function Assign<T>(f: Field<T>, current: Option<T>): (r: Option<T>)
    ensures f.Absent? ==> r == current
    ensures f.Null? ==> r == None
    ensures f.Value? ==> r == Some(f.v)
  {
    match f
    case Absent => current
    case Null => None
    case Value(v) => Some(v)
  }

  /** `goal ? Number.parseFloat(goal) : null`. */
  function ParsedGoal(goal: Field<string>, parse: string -> real): (r: Option<real>)
    ensures r.Some? <==> TruthyTextField(goal)
    ensures r.Some? ==> r.value == parse(goal.v)
  {
    if TruthyTextField(goal) then Some(parse(goal.v)) else None
  }

  lemma IdsUpdate(users: seq<User>, i: nat, u: User)
    requires i < |users| && u.id == users[i].id
    ensures Ids(users[i := u]) == Ids(users)
  {
    forall x | x in Ids(users) ensures x in Ids(users[i := u]) {
      var v :| v in users && v.id == x;
      var k :| 0 <= k < |users| && users[k] == v;
      if k == i {
        assert users[i := u][i] == u;
      } else {
        assert users[i := u][k] == v;
      }
    }
  }

  /** `rest` is `users` with the row at `i` taken out and the others kept in order. */
  ghost predicate RemovedAt(users: seq<User>, i: nat, rest: seq<User>) {
    && i < |users| && |rest| == |users| - 1
    && (forall k :: 0 <= k < i ==> rest[k] == users[k])
    && (forall k :: i <= k < |rest| ==> rest[k] == users[k + 1])
  }

  lemma RemovedAtSlices(users: seq<User>, i: nat)
    requires i < |users|
    ensures RemovedAt(users, i, users[..i] + users[i + 1..])
  {
  }

  /** The rows left after a removal are exactly the rows with another id. */
  lemma RemovedMembers(users: seq<User>, i: nat, rest: seq<User>)
    requires RemovedAt(users, i, rest) && UniqueIds(users)
    ensures forall u :: u in rest <==> u in users && u.id != users[i].id
  {
    forall u | u in users && u.id != users[i].id ensures u in rest {
      var k :| 0 <= k < |users| && users[k] == u;
      if k < i { assert rest[k] == u; } else { assert rest[k - 1] == u; }
    }
    forall u | u in rest ensures u in users && u.id != users[i].id {
      var k :| 0 <= k < |rest| && rest[k] == u;
      if k < i { assert users[k] == u; } else { assert users[k + 1] == u; }
    }
  }

  lemma RemovedIds(users: seq<User>, i: nat, rest: seq<User>)
    requires RemovedAt(users, i, rest) && UniqueIds(users)
    ensures Ids(rest) == Ids(users) - {users[i].id}
  {
    RemovedMembers(users, i, rest);
  }

  /** Taking a row out keeps the ids and the emails unique. */
  lemma RemovedUnique(users: seq<User>, i: nat, rest: seq<User>)
    requires RemovedAt(users, i, rest) && UniqueIds(users) && UniqueEmails(users)
    ensures UniqueIds(rest) && UniqueEmails(rest)
  {
    forall j, k | 0 <= j < k < |rest|
      ensures rest[j].id != rest[k].id && (rest[j].email.Some? ==> rest[j].email != rest[k].email)
    {
      var j', k' := if j < i then j else j + 1, if k < i then k else k + 1;
      assert rest[j] == users[j'] && rest[k] == users[k'];
    }
  }

  lemma IdsRemove(users: seq<User>, i: nat)
    requires i < |users| && UniqueIds(users)
    ensures Ids(users[..i] + users[i + 1..]) == Ids(users) - {users[i].id}
  {
    RemovedAtSlices(users, i);
    RemovedIds(users, i, users[..i] + users[i + 1..]);
  }

  /**
   * Removing the row at `i` leaves exactly the other users, and no rows of
   * withdrawals without that owner point at the removed id.
   */
  lemma RemoveUserKeepsTables(users: seq<User>, savings: seq<Entry>, withdrawals: seq<Entry>, i: nat)
    requires i < |users| && UniqueIds(users)
    requires OwnedBy(withdrawals, users[i].id) == []
    ensures Ids(users[..i] + users[i + 1..]) == Ids(users) - {users[i].id}
    ensures forall u :: u in users[..i] + users[i + 1..] <==> u in users && u.id != users[i].id
    ensures forall w :: w in withdrawals ==> w.userId != users[i].id
  {
    var rest := users[..i] + users[i + 1..];
    RemovedAtSlices(users, i);
    RemovedMembers(users, i, rest);
    RemovedIds(users, i, rest);
    forall w | w in withdrawals ensures w.userId != users[i].id {
    }
  }

  /** The invariants of the tables survive deleting a user whose savings are gone and who has no withdrawals. */
  lemma DeleteUserValid(users: seq<User>, savings: seq<Entry>, withdrawals: seq<Entry>, i: nat)
    requires i < |users|
    requires UniqueIds(users) && UniqueEmails(users)
    requires Owned(savings, users) && Owned(withdrawals, users)
    requires OwnedBy(withdrawals, users[i].id) == []
    ensures UniqueIds(users[..i] + users[i + 1..]) && UniqueEmails(users[..i] + users[i + 1..])
    ensures Owned(NotOwnedBy(savings, users[i].id), users[..i] + users[i + 1..])
    ensures Owned(withdrawals, users[..i] + users[i + 1..])
  {
    var rest := users[..i] + users[i + 1..];
    RemovedAtSlices(users, i);
    RemovedUnique(users, i, rest);
    RemovedIds(users, i, rest);
    forall w | w in withdrawals ensures w.userId != users[i].id {
    }
  }

  /**
   * Rewriting one user row in place keeps the invariants of the tables,
   * provided its id stays and its email is not held by another row.
   */
  lemma ReplaceUserValid(users: seq<User>, savings: seq<Entry>, withdrawals: seq<Entry>, i: nat, row: User, next: nat)
    requires i < |users| && row.id == users[i].id
    requires forall u :: u in users ==> u.id < next
    requires UniqueIds(users) && UniqueEmails(users)
    requires Owned(savings, users) && Owned(withdrawals, users)
    requires row.email.Some? ==> forall u :: u in users && u.email == row.email ==> u.id == row.id
    ensures forall u :: u in users[i := row] ==> u.id < next
    ensures UniqueIds(users[i := row]) && UniqueEmails(users[i := row])
    ensures Owned(savings, users[i := row]) && Owned(withdrawals, users[i := row])
  {
    IdsUpdate(users, i, row);
    var after := users[i := row];
    forall j, k | 0 <= j < k < |after| && after[j].email.Some? ensures after[j].email != after[k].email {
      if j == i {
        assert users[k] in users;
      } else if k == i {
        assert users[j] in users;
      }
    }
  }

  class LedgerStore {
    var users: seq<User>
    var savings: seq<Entry>
    var withdrawals: seq<Entry>
    /** The next identifier the database hands out. */
    var nextId: nat

    ghost predicate Valid()
      reads this
    {
      && (forall u :: u in users ==> u.id < nextId)
      && (forall e :: e in savings ==> e.id < nextId)
      && (forall e :: e in withdrawals ==> e.id < nextId)
      && UniqueIds(users)
      && UniqueEmails(users)
      && Owned(savings, users)
      && Owned(withdrawals, users)
    }

    /** The tables as found, with no rows yet in savings or withdrawals. */
    constructor (initial: seq<User>, next: nat)
      requires forall u :: u in initial ==> u.id < next
      requires UniqueIds(initial) && UniqueEmails(initial)
      ensures Valid()
      ensures users == initial && savings == [] && withdrawals == [] && nextId == next
    {
      users, savings, withdrawals, nextId := initial, [], [], next;
    }

    /**
     * POST /api/admin/savings: after the session checks, a falsy `userId` or
     * `amount` gives 400; otherwise one row is appended, with no balance check.
     */
    method PostSaving(session: Option<SessionUser>, userId: Field<Id>, amount: Field<real>,
                      description: Field<string>, now: int) returns (reply: Reply)
      requires Valid()
      modifies this
      ensures Valid()
      ensures GateById(session, old(users)).Deny? ==>
                reply == Failure(GateById(session, old(users)).status, GateById(session, old(users)).message)
      ensures GateById(session, old(users)).Proceed? && !(userId.Value? && TruthyNumberField(amount)) ==>
                reply == Failure(400, "User ID and amount are required")
      ensures reply.Success? <==> GateById(session, old(users)).Proceed? && userId.Value?
                                  && TruthyNumberField(amount) && userId.v in Ids(old(users))
      ensures reply.Success? ==>
                && savings == old(savings) + [Entry(old(nextId), userId.v, amount.v, StoredOrNull(description), now)]
                && nextId == old(nextId) + 1
                && users == old(users) && withdrawals == old(withdrawals)
                && (forall uid :: Available(savings, withdrawals, uid)
                      == old(Available(savings, withdrawals, uid)) + (if uid == userId.v then amount.v else 0.0))
      ensures !reply.Success? ==> unchanged(this)
    {
      var gate := GateById(session, users);
      if gate.Deny? {
        return Failure(gate.status, gate.message);
      }
      if !userId.Value? || !TruthyNumberField(amount) {
        return Failure(400, "User ID and amount are required");
      }
      if userId.v !in Ids(users) {
        // the foreign key refuses the row; the route answers from its catch block
        return Failure(500, "Failed to create savings entry");
      }
      var row := Entry(nextId, userId.v, amount.v, StoredOrNull(description), now);
      forall uid ensures Available(savings + [row], withdrawals, uid)
                         == Available(savings, withdrawals, uid) + (if uid == userId.v then amount.v else 0.0) {
        SavingRaisesAvailable(savings, withdrawals, row, uid);
      }
      savings := savings + [row];
      nextId := nextId + 1;
      reply := Success;
    }

    /**
     * POST /api/admin/withdrawals: after the session checks and the falsy
     * check, the user's available balance is computed from the two
     * aggregates and `amount > available` is refused; otherwise one row is
     * appended.
     */
    method PostWithdrawal(session: Option<SessionUser>, userId: Field<Id>, amount: Field<real>,
                          description: Field<string>, now: int) returns (reply: Reply)
      requires Valid()
      modifies this
      ensures Valid()
      ensures GateById(session, old(users)).Deny? ==>
                reply == Failure(GateById(session, old(users)).status, GateById(session, old(users)).message)
      ensures GateById(session, old(users)).Proceed? && !(userId.Value? && TruthyNumberField(amount)) ==>
                reply == Failure(400, "User ID and amount are required")
      ensures GateById(session, old(users)).Proceed? && userId.Value? && TruthyNumberField(amount)
              && amount.v > old(Available(savings, withdrawals, userId.v)) ==>
                reply == Failure(400, "Insufficient funds")
      ensures reply.Success? <==> GateById(session, old(users)).Proceed? && userId.Value? && TruthyNumberField(amount)
                                  && !(amount.v > old(Available(savings, withdrawals, userId.v)))
                                  && userId.v in Ids(old(users))
      ensures reply.Success? ==>
                && withdrawals == old(withdrawals) + [Entry(old(nextId), userId.v, amount.v, StoredOrNull(description), now)]
                && nextId == old(nextId) + 1
                && users == old(users) && savings == old(savings)
                && Available(savings, withdrawals, userId.v) == old(Available(savings, withdrawals, userId.v)) - amount.v
                && Available(savings, withdrawals, userId.v) >= 0.0
                && (forall uid :: uid != userId.v ==> Available(savings, withdrawals, uid) == old(Available(savings, withdrawals, uid)))
      ensures !reply.Success? ==> unchanged(this)
    {
      var gate := GateById(session, users);
      if gate.Deny? {
        return Failure(gate.status, gate.message);
      }
      if !userId.Value? || !TruthyNumberField(amount) {
        return Failure(400, "User ID and amount are required");
      }
      var uid := userId.v;
      var saved := OrZero(AggregateSum(OwnedBy(savings, uid)));
      var withdrawn := OrZero(AggregateSum(OwnedBy(withdrawals, uid)));
      var available := saved - withdrawn;
      if amount.v > available {
        return Failure(400, "Insufficient funds");
      }
      if uid !in Ids(users) {
        return Failure(500, "Failed to create withdrawal entry");
      }
      var row := Entry(nextId, uid, amount.v, StoredOrNull(description), now);
      forall other ensures Available(savings, withdrawals + [row], other)
                           == Available(savings, withdrawals, other) - (if other == uid then amount.v else 0.0) {
        WithdrawalLowersAvailable(savings, withdrawals, row, other);
      }
      withdrawals := withdrawals + [row];
      nextId := nextId + 1;
      reply := Success;
    }

    /**
     * GET /api/admin/withdrawals: one user's withdrawals when `userId` is given,
     * all of them otherwise, newest first.
     */
    method GetWithdrawals(session: Option<SessionUser>, userId: Option<Id>) returns (reply: Reply, rows: seq<Entry>)
      ensures GateById(session, users).Deny? ==>
                reply == Failure(GateById(session, users).status, GateById(session, users).message) && rows == []
      ensures reply.Success? <==> GateById(session, users).Proceed?
      ensures reply.Success? ==>
                && multiset(rows) == multiset(if userId.Some? then OwnedBy(withdrawals, userId.value) else withdrawals)
                && SortedDesc(rows, CreatedKey)
    {
      var gate := GateById(session, users);
      if gate.Deny? {
        return Failure(gate.status, gate.message), [];
      }
      var matching := if userId.Some? then OwnedBy(withdrawals, userId.value) else withdrawals;
      rows := SortDesc(matching, CreatedKey);
      SortDescSorted(matching, CreatedKey);
      reply := Success;
    }

    /**
     * POST /api/admin/users: name and email are required, an email already on
     * file is refused, and the new row always gets role "USER".
     */
    method CreateUser(session: Option<SessionUser>, name: Field<string>, email: Field<string>,
                      phone: Field<string>, goal: Field<string>, frequency: Field<string>,
                      parse: string -> real) returns (reply: Reply)
      requires Valid()
      modifies this
      ensures Valid()
      ensures GateByEmail(session, old(users)).Deny? ==>
                reply == Failure(GateByEmail(session, old(users)).status, GateByEmail(session, old(users)).message)
      ensures GateByEmail(session, old(users)).Proceed? && !(TruthyTextField(name) && TruthyTextField(email)) ==>
                reply == Failure(400, "Name and email are required")
      ensures GateByEmail(session, old(users)).Proceed? && TruthyTextField(name) && TruthyTextField(email)
              && FindByEmail(old(users), email.v).Some? ==>
                reply == Failure(400, "User with this email already exists")
      ensures reply.Success? <==> GateByEmail(session, old(users)).Proceed? && TruthyTextField(name)
                                  && TruthyTextField(email) && FindByEmail(old(users), email.v).None?
      ensures reply.Success? ==>
                && users == old(users) + [User(old(nextId), Some(name.v), Some(email.v), TextOrNull(phone),
                                               ParsedGoal(goal, parse), TextOrNull(frequency), UserRole)]
                && nextId == old(nextId) + 1
                && savings == old(savings) && withdrawals == old(withdrawals)
      ensures !reply.Success? ==> unchanged(this)
    {
      var gate := GateByEmail(session, users);
      if gate.Deny? {
        return Failure(gate.status, gate.message);
      }
      if !TruthyTextField(name) || !TruthyTextField(email) {
        return Failure(400, "Name and email are required");
      }
      if FindByEmail(users, email.v).Some? {
        return Failure(400, "User with this email already exists");
      }
      var row := User(nextId, Some(name.v), Some(email.v), TextOrNull(phone), ParsedGoal(goal, parse),
                      TextOrNull(frequency), UserRole);
      assert Ids(users + [row]) == Ids(users) + {row.id};
      users := users + [row];
      nextId := nextId + 1;
      reply := Success;
    }

    /**
     * PUT /api/admin/users: rewrites name, email, phone, goal and frequency of
     * one row. The route has no duplicate-email check of its own; the unique
     * column refuses a clash, and a missing row makes the update throw.
     */
    method UpdateUser(session: Option<SessionUser>, userId: Field<Id>, name: Field<string>, email: Field<string>,
                      phone: Field<string>, goal: Field<string>, frequency: Field<string>,
                      parse: string -> real) returns (reply: Reply)
      requires Valid()
      modifies this
      ensures Valid()
      ensures GateByEmail(session, old(users)).Deny? ==>
                reply == Failure(GateByEmail(session, old(users)).status, GateByEmail(session, old(users)).message)
      ensures GateByEmail(session, old(users)).Proceed? && !(userId.Value? && TruthyTextField(name) && TruthyTextField(email)) ==>
                reply == Failure(400, "User ID, name and email are required")
      ensures reply.Success? <==>
                && GateByEmail(session, old(users)).Proceed? && userId.Value? && TruthyTextField(name) && TruthyTextField(email)
                && userId.v in Ids(old(users))
                && (forall u :: u in old(users) && u.email == Some(email.v) ==> u.id == userId.v)
      ensures reply.Success? ==> |users| == |old(users)|
      ensures reply.Success? ==>
                forall i :: 0 <= i < |users| && old(users)[i].id != userId.v ==> users[i] == old(users)[i]
      ensures reply.Success? ==>
                forall i :: 0 <= i < |users| && old(users)[i].id == userId.v ==>
                  users[i] == old(users)[i].(name := Some(name.v), email := Some(email.v), phone := TextOrNull(phone),
                                             goal := ParsedGoal(goal, parse), frequency := TextOrNull(frequency))
      ensures reply.Success? ==> savings == old(savings) && withdrawals == old(withdrawals) && nextId == old(nextId)
      ensures !reply.Success? ==> unchanged(this)
    {
      var gate := GateByEmail(session, users);
      if gate.Deny? {
        return Failure(gate.status, gate.message);
      }
      if !userId.Value? || !TruthyTextField(name) || !TruthyTextField(email) {
        return Failure(400, "User ID, name and email are required");
      }
      var index := IndexOfId(users, userId.v);
      if index.None? {
        assert userId.v !in Ids(users);
        return Failure(500, "Internal server error");
      }
      var i := index.value;
      var holder := FindByEmail(users, email.v);
      if holder.Some? && holder.value.id != userId.v {
        return Failure(500, "Internal server error");
      }
      var row := users[i].(name := Some(name.v), email := Some(email.v), phone := TextOrNull(phone),
                           goal := ParsedGoal(goal, parse), frequency := TextOrNull(frequency));
      ReplaceUserValid(users, savings, withdrawals, i, row, nextId);
      users := users[i := row];
      reply := Success;
    }

    /**
     * DELETE /api/admin/users?userId=...: removes the user's savings, then the
     * user. The two deletions are separate statements: when the second one
     * fails, the first has already happened.
     */
    method DeleteUser(session: Option<SessionUser>, userId: Option<Id>) returns (reply: Reply)
      requires Valid()
      modifies this
      ensures Valid()
      ensures GateByEmail(session, old(users)).Deny? ==>
                reply == Failure(GateByEmail(session, old(users)).status, GateByEmail(session, old(users)).message)
                && unchanged(this)
      ensures GateByEmail(session, old(users)).Proceed? && userId.None? ==>
                reply == Failure(400, "User ID is required") && unchanged(this)
      ensures GateByEmail(session, old(users)).Proceed? && userId.Some? ==>
                && savings == NotOwnedBy(old(savings), userId.value)
                && withdrawals == old(withdrawals) && nextId == old(nextId)
      ensures reply.Success? <==> GateByEmail(session, old(users)).Proceed? && userId.Some?
                                  && userId.value in Ids(old(users)) && OwnedBy(old(withdrawals), userId.value) == []
      ensures reply.Success? ==>
                && Ids(users) == Ids(old(users)) - {userId.value}
                && (forall u :: u in users <==> u in old(users) && u.id != userId.value)
                && (forall other :: other != userId.value ==>
                      Available(savings, withdrawals, other) == old(Available(savings, withdrawals, other)))
      ensures GateByEmail(session, old(users)).Proceed? && userId.Some? && !reply.Success? ==>
                reply == Failure(500, "Internal server error") && users == old(users)
    {
      var gate := GateByEmail(session, users);
      if gate.Deny? {
        return Failure(gate.status, gate.message);
      }
      if userId.None? {
        return Failure(400, "User ID is required");
      }
      var uid := userId.value;
      forall other | other != uid
        ensures Available(NotOwnedBy(savings, uid), withdrawals, other) == Available(savings, withdrawals, other) {
        DeletingSavingsKeepsOthers(savings, withdrawals, uid, other);
      }
      savings := NotOwnedBy(savings, uid);
      var index := IndexOfId(users, uid);
      if index.None? {
        return Failure(500, "Internal server error");
      }
      if OwnedBy(withdrawals, uid) != [] {
        // the withdrawals still reference the user, so the delete is refused
        return Failure(500, "Internal server error");
      }
      var i := index.value;
      var rest := users[..i] + users[i + 1..];
      RemoveUserKeepsTables(users, savings, withdrawals, i);
      DeleteUserValid(users, old(savings), withdrawals, i);
      users := rest;
      reply := Success;
    }

    /**
     * POST /api/user/complete-profile: the signed-in user's own row gets the
     * phone, goal and frequency sent. A member left out of the body leaves its
     * column as it was, except the goal, which a falsy value sets to null.
     */
    method CompleteProfile(session: Option<SessionUser>, phone: Field<string>, goal: Field<string>,
                           frequency: Field<string>, parse: string -> real) returns (reply: Reply)
      requires Valid()
      modifies this
      ensures Valid()
      ensures (session.None? || session.value.id.None?) ==> reply == Failure(401, "Unauthorized")
      ensures reply.Success? <==> session.Some? && session.value.id.Some? && session.value.id.value in Ids(old(users))
      ensures reply.Success? ==>
                && |users| == |old(users)|
                && (forall i :: 0 <= i < |users| && old(users)[i].id != session.value.id.value ==> users[i] == old(users)[i])
                && (forall i :: 0 <= i < |users| && old(users)[i].id == session.value.id.value ==>
                      users[i] == old(users)[i].(phone := Assign(phone, old(users)[i].phone),
                                                 goal := ParsedGoal(goal, parse),
                                                 frequency := Assign(frequency, old(users)[i].frequency)))
                && savings == old(savings) && withdrawals == old(withdrawals) && nextId == old(nextId)
      ensures !reply.Success? ==> unchanged(this)
    {
      if session.None? || session.value.id.None? {
        return Failure(401, "Unauthorized");
      }
      var uid := session.value.id.value;
      var index := IndexOfId(users, uid);
      if index.None? {
        return Failure(500, "Failed to update profile");
      }
      var i := index.value;
      var row := users[i].(phone := Assign(phone, users[i].phone), goal := ParsedGoal(goal, parse),
                           frequency := Assign(frequency, users[i].frequency));
      IdsUpdate(users, i, row);
      users := users[i := row];
      reply := Success;
    }
  }
}
