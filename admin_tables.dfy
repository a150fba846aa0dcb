/**
 * What the admin tabs share: the savings list with each saving's owner
 * attached and its newest-first ordering, users ranked by their savings
 * total, the "created after an instant" filter, and the state of the
 * per-row edit dialogs.
 */
module AdminTables {
  import opened Common
  import opened Sums
  import opened Records
  import opened Sorting

  /** One day in milliseconds, as the tabs write it: `24 * 60 * 60 * 1000`. */
  const DayMs: int := 24 * 60 * 60 * 1000

  /** A saving as the admin tabs receive it (`allSavings`), with its owner's row included. */
  datatype SavingWithUser = SavingWithUser(saving: Entry, user: User)

  /** `new Date(s.createdAt).getTime()`, as a sort key. */
  function CreatedAt(s: SavingWithUser): real { s.saving.createdAt as real }

  function SavingCreated(s: SavingWithUser): int { s.saving.createdAt }

  function EntryCreated(e: Entry): int { e.createdAt }

  /** No saving of `all` that is not shown is newer than a saving shown. */
  ghost predicate NoneNewerLeftOut(shown: seq<SavingWithUser>, all: multiset<SavingWithUser>) {
    forall x, y :: x in shown && y in all - multiset(shown) ==> CreatedAt(x) >= CreatedAt(y)
  }

  /**
   * `allSavings.sort((a, b) => time(b) - time(a)).slice(0, n)`: the prop's
   * array itself is reordered newest first, and its first `n` elements are
   * shown. The sort is stable, so the array ends up exactly as `SortDesc`
   * orders it and the rows shown are `TopN`'s, ties included. No saving left
   * out is newer than one shown, and an array already in that order is not
   * changed.
   */
  method NewestFirst(all: array<SavingWithUser>, n: nat) returns (shown: seq<SavingWithUser>)
    modifies all
    ensures all[..] == SortDesc(old(all[..]), CreatedAt)
    ensures shown == TopN(old(all[..]), n, CreatedAt)
    ensures multiset(all[..]) == multiset(old(all[..]))
    ensures SortedDesc(all[..], CreatedAt)
    ensures SortedDesc(old(all[..]), CreatedAt) ==> all[..] == old(all[..])
    ensures shown == all[..Min(n, all.Length)]
    ensures |shown| == Min(n, all.Length) && SortedDesc(shown, CreatedAt)
    ensures NoneNewerLeftOut(shown, multiset(old(all[..])))
  {
    SortInPlace(all, CreatedAt);
    var k := Min(n, all.Length);
    shown := all[..k];
    PrefixNoneNewer(all[..], k);
  }

  /** The first `k` of a newest-first list are in order, and none of the rest is newer. */
  lemma PrefixNoneNewer(sorted: seq<SavingWithUser>, k: nat)
    requires SortedDesc(sorted, CreatedAt) && k <= |sorted|
    ensures SortedDesc(sorted[..k], CreatedAt)
    ensures NoneNewerLeftOut(sorted[..k], multiset(sorted))
  {
    SplitRanks(sorted, k, CreatedAt);
    MultisetSplit(sorted, k);
  }

  /** A user together with the sum of their savings (`{ ...user, totalSavings }`). */
  datatype Ranked = Ranked(user: UserWithSavings, total: real)

  function RankedTotal(r: Ranked): real { r.total }

  function WithTotals(users: seq<UserWithSavings>): (r: seq<Ranked>)
    ensures |r| == |users|
    ensures forall k :: 0 <= k < |users| ==> r[k] == Ranked(users[k], UserTotal(users[k]))
  {
    seq(|users|, k requires 0 <= k < |users| => Ranked(users[k], UserTotal(users[k])))
  }

  /** `users.map(with total).sort((a, b) => b.total - a.total).slice(0, n)`. */
  function TopByTotal(users: seq<UserWithSavings>, n: nat): seq<Ranked> {
    TopN(WithTotals(users), n, RankedTotal)
  }

  /**
   * The ranking shows `n` users (or all of them when there are fewer), each
   * with their own total, largest total first, and no user left out has
   * saved more than a user shown.
   */
  lemma TopByTotalRanks(users: seq<UserWithSavings>, n: nat)
    ensures |TopByTotal(users, n)| == Min(n, |users|)
    ensures forall j, k :: 0 <= j < k < |TopByTotal(users, n)| ==> TopByTotal(users, n)[j].total >= TopByTotal(users, n)[k].total
    ensures forall r :: r in TopByTotal(users, n) ==> r.user in users && r.total == UserTotal(r.user)
    ensures forall u, r :: u in users && Ranked(u, UserTotal(u)) !in TopByTotal(users, n) && r in TopByTotal(users, n) ==>
              r.total >= UserTotal(u)
  {
    TopNRanks(WithTotals(users), n, RankedTotal);
    TopByTotalRows(users, n);
    TopByTotalOutranks(users, n);
  }

  lemma TopByTotalRows(users: seq<UserWithSavings>, n: nat)
    ensures forall r :: r in TopByTotal(users, n) ==> r.user in users && r.total == UserTotal(r.user)
  {
    var all := WithTotals(users);
    forall r | r in TopByTotal(users, n) ensures r.user in users && r.total == UserTotal(r.user) {
      TopNFromInput(all, n, RankedTotal, r);
      var k :| 0 <= k < |all| && all[k] == r;
    }
  }

  lemma TopByTotalOutranks(users: seq<UserWithSavings>, n: nat)
    ensures forall u, r :: u in users && Ranked(u, UserTotal(u)) !in TopByTotal(users, n) && r in TopByTotal(users, n) ==>
              r.total >= UserTotal(u)
  {
    var all := WithTotals(users);
    var top := TopByTotal(users, n);
    TopNOutranks(all, n, RankedTotal);
    forall u, r | u in users && Ranked(u, UserTotal(u)) !in top && r in top ensures r.total >= UserTotal(u) {
      var k :| 0 <= k < |users| && users[k] == u;
      var y := all[k];
      assert y == Ranked(u, UserTotal(u)) && y in all;
      assert RankedTotal(r) >= RankedTotal(y);
    }
  }

  /** `xs.filter((x) => time(x) > cutoff)`: the items created strictly after `cutoff`, in order. */
  function NewerThan<T(!new)>(xs: seq<T>, createdAt: T -> int, cutoff: int): (r: seq<T>)
    ensures |r| <= |xs|
    ensures forall x :: x in r <==> x in xs && createdAt(x) > cutoff
    decreases |xs|
  {
    if |xs| == 0 then []
    else
      var last := xs[|xs| - 1];
      NewerThan(xs[..|xs| - 1], createdAt, cutoff) + (if createdAt(last) > cutoff then [last] else [])
  }

  /** Nothing is dropped exactly when every item was created after the cutoff. */
  lemma {:induction false} NewerThanKeepsAll<T(!new)>(xs: seq<T>, createdAt: T -> int, cutoff: int)
    ensures |NewerThan(xs, createdAt, cutoff)| == |xs| <==> forall k :: 0 <= k < |xs| ==> createdAt(xs[k]) > cutoff
    decreases |xs|
  {
    if |xs| > 0 {
      var init := xs[..|xs| - 1];
      NewerThanKeepsAll(init, createdAt, cutoff);
      assert forall k :: 0 <= k < |init| ==> init[k] == xs[k];
    }
  }

  /** A later cutoff never keeps more items. */
  lemma {:induction false} NewerThanShrinks<T(!new)>(xs: seq<T>, createdAt: T -> int, early: int, late: int)
    requires early <= late
    ensures |NewerThan(xs, createdAt, late)| <= |NewerThan(xs, createdAt, early)|
    decreases |xs|
  {
    if |xs| > 0 {
      NewerThanShrinks(xs[..|xs| - 1], createdAt, early, late);
    }
  }

  /**
   * The state behind a tab's per-row edit dialogs: the `show…Dialog` flag
   * and the `editing…` item (`null` when none).
   */
  class EditDialog<T> {
    var show: bool
    var editing: Option<T>

    constructor ()
      ensures !show && editing.None?
    {
      show, editing := false, None;
    }

    /** `open={show && editing?.id === id}`: the dialog of the row with this id is open. */
    predicate OpenFor(id: Id, idOf: T -> Id)
      reads this
    {
      show && editing.Some? && idOf(editing.value) == id
    }

    /** `onOpenChange(open)`: the flag follows the dialog, and closing it forgets the item. */
    method OpenChange(open: bool, idOf: T -> Id)
      modifies this
      ensures show == open
      ensures editing == if open then old(editing) else None
      ensures !open ==> forall id :: !OpenFor(id, idOf)
    {
      show := open;
      if !open {
        editing := None;
      }
    }

    /**
     * A row's edit button: its `onClick` stores the item, then the dialog
     * trigger around it opens the dialog. Afterwards exactly that row's
     * dialog is open.
     */
    method ClickEdit(item: T, idOf: T -> Id)
      modifies this
      ensures editing == Some(item) && show
      ensures forall id :: OpenFor(id, idOf) <==> id == idOf(item)
    {
      editing := Some(item);
      OpenChange(true, idOf);
    }
  }
}
