/**
 * The user management page: a sortable, paged table of admin users and the
 * add/edit user dialog.
 */
module UserPage {
  import opened Wrappers
  import opened Ordering
  import opened Sorting
  import opened Paging
  import opened TableView

  datatype User = User(
    id: int, name: string, email: string, role: string, status: string,
    permissions: seq<string>, lastLogin: string)

  /** The column with a sort button. */
  datatype UserField = Name

  function KeyOf(f: UserField): User -> Key
  {
    match f
    case Name => (u: User) => Str(u.name)
  }

  class UserManagement {
    const users: seq<User>
    const table: TableState<UserField>
    var isAddUserOpen: bool
    var isEditUserOpen: bool
    /** `selectedUser`, null as None. */
    var selectedUser: Option<User>

    ghost predicate Valid()
      reads this, table
    {
      table.Valid()
    }

    /** The page as it first renders: sorted by name ascending, page 1 of 10 rows, no dialog open. */
    constructor (users: seq<User>)
      ensures this.users == users
      ensures fresh(table)
      ensures table.Sort() == SortSpec(Name, Asc)
      ensures table.currentPage == 1 && table.rowsPerPage == 10
      ensures !isAddUserOpen && !isEditUserOpen && selectedUser == None
      ensures Valid()
    {
      this.users := users;
      table := new TableState(Name, Asc);
      isAddUserOpen, isEditUserOpen := false, false;
      selectedUser := None;
    }

    /** `handleSort`: a newly chosen column starts ascending. */
    method HandleSort(f: UserField)
      modifies table
      ensures table.Sort() == ToggleSort(old(table.Sort()), f, Asc)
      ensures table.currentPage == old(table.currentPage)
      ensures table.rowsPerPage == old(table.rowsPerPage)
    {
      table.HandleSort(f, Asc);
    }

    /** `sortedAndPaginatedData`: the current page of the users sorted by the current column. */
    method SortedAndPaginatedData() returns (rows: seq<User>)
      ensures rows == Visible(users, KeyOf(table.sortField), table.sortDirection,
                              table.currentPage, table.rowsPerPage)
    {
      rows := SortedAndPaginated(users, KeyOf(table.sortField), table.sortDirection,
                                 table.currentPage, table.rowsPerPage);
    }

    /** The add/edit dialog's `onOpenChange`: closing clears both flags and the selection. */
    method OnDialogOpenChange(open: bool)
      modifies this
      ensures !open ==> !isAddUserOpen && !isEditUserOpen && selectedUser == None
      ensures open ==> isAddUserOpen == old(isAddUserOpen) && isEditUserOpen == old(isEditUserOpen)
                       && selectedUser == old(selectedUser)
    {
      if !open {
        isAddUserOpen := false;
        isEditUserOpen := false;
        selectedUser := None;
      }
    }

    /** The form's Cancel button: the same three resets as closing the dialog. */
    method Cancel()
      modifies this
      ensures !isAddUserOpen && !isEditUserOpen && selectedUser == None
    {
      OnDialogOpenChange(false);
    }
  }

  /**
   * The numbered pager buttons 1..totalPages each show at least one user,
   * and on such a page "Showing X to Y" counts exactly the users shown.
   */
  lemma NumberedPagesShowUsers(users: seq<User>, f: UserField, dir: Direction, page: int, rows: int)
    requires RowsPerPageOption(rows) && 1 <= page <= TotalPages(|users|, rows)
    ensures 1 <= |Visible(users, KeyOf(f), dir, page, rows)| <= rows
    ensures RangeEnd(page, rows, |users|) - RangeStart(page, rows) + 1
            == |Visible(users, KeyOf(f), dir, page, rows)|
  {
    var sorted := StableSort(KeyOf(f), dir, users);
    SortPermutation(KeyOf(f), dir, users);
    EveryPageHasRows(sorted, page, rows);
    RangeCountsVisibleRows(sorted, page, rows);
  }
}
