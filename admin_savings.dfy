/**
 * The admin's savings tab: the five newest savings, the table of the fifty
 * newest, and the edit dialog each table row opens.
 */
module AdminSavings {
  import opened Common
  import opened Records
  import opened Sorting
  import opened AdminTables

  /**
   * The tab renders the recent list, then the table; each sorts the
   * `allSavings` array in place, newest first, and takes its first 5 and 50
   * entries. The second sort finds the array already in order and leaves it
   * as it is, so the recent list is the head of the table.
   */
  method RecentAndTable(allSavings: array<SavingWithUser>) returns (recent: seq<SavingWithUser>, table: seq<SavingWithUser>)
    modifies allSavings
    ensures multiset(allSavings[..]) == multiset(old(allSavings[..]))
    ensures SortedDesc(allSavings[..], CreatedAt)
    ensures |recent| == Min(5, allSavings.Length) && |table| == Min(50, allSavings.Length)
    ensures table == allSavings[..|table|] && recent == table[..|recent|]
    ensures NoneNewerLeftOut(table, multiset(old(allSavings[..])))
  {
    recent := NewestFirst(allSavings, 5);
    ghost var sorted := allSavings[..];
    table := NewestFirst(allSavings, 50);
    assert allSavings[..] == sorted;
    PrefixOfPrefix(sorted, |recent|, |table|);
  }

  lemma PrefixOfPrefix<T>(s: seq<T>, m: nat, n: nat)
    requires m <= n <= |s|
    ensures s[..n][..m] == s[..m]
  {
  }

  /** The fields the edit button keeps of a row. */
  datatype EditingSaving = EditingSaving(id: Id, userId: Id, amount: real, description: Option<string>)

  function EditingId(e: EditingSaving): Id { e.id }

  /** `{ id: saving.id, userId: saving.user.id, amount: saving.amount, description: saving.description }`. */
  function Capture(row: SavingWithUser): (r: EditingSaving)
    ensures r.id == row.saving.id && r.userId == row.user.id
    ensures r.amount == row.saving.amount && r.description == row.saving.description
  {
    EditingSaving(row.saving.id, row.user.id, row.saving.amount, row.saving.description)
  }

  /**
   * A row's edit button: the dialog keeps exactly that row's id, owner,
   * amount and description, and only that row's dialog is open.
   */
  method EditSaving(dialog: EditDialog<EditingSaving>, row: SavingWithUser)
    modifies dialog
    ensures dialog.editing == Some(Capture(row)) && dialog.show
    ensures forall id :: dialog.OpenFor(id, EditingId) <==> id == row.saving.id
  {
    dialog.ClickEdit(Capture(row), EditingId);
  }

  /** Closing a row's dialog closes every row's dialog and forgets the saving being edited. */
  method CloseEditor(dialog: EditDialog<EditingSaving>)
    modifies dialog
    ensures !dialog.show && dialog.editing.None?
    ensures forall id :: !dialog.OpenFor(id, EditingId)
  {
    dialog.OpenChange(false, EditingId);
  }
}
