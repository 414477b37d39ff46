/** The admin user table: the search over name and email, the page of rows
    shown and the page buttons. */
module UsersList {
  import opened Common
  import opened Text
  import Seqs
  import Pagination
  import Accounts

  type Row = Accounts.PublicUser

  /** The filter callback: the query occurs in the name or the email,
      ignoring case. */
  predicate Matches(search: string, u: Row) {
    ContainsIgnoreCase(u.name, search) || ContainsIgnoreCase(u.email, search)
  }

  function Matcher(search: string): Row -> bool {
    u => Matches(search, u)
  }

  /** `filteredUsers`, in fetch order. */
  function Filtered(users: seq<Row>, search: string): (r: seq<Row>)
    ensures |r| <= |users|
    ensures forall i :: 0 <= i < |r| ==> Matches(search, r[i])
  {
    Seqs.Filter(users, Matcher(search))
  }

  /** A user is listed exactly when fetched and matching; an empty search
      lists everyone in fetch order. */
  lemma FilteredExactly(users: seq<Row>, search: string, u: Row)
    ensures u in Filtered(users, search) <==> u in users && Matches(search, u)
    ensures Filtered(users, "") == users
  {
    Seqs.FilterMembers(users, Matcher(search));
    forall i | 0 <= i < |users| ensures Matcher("")(users[i]) {
      ContainsEmpty(ToLower(users[i].name));
    }
    Seqs.FilterAll(users, Matcher(""));
  }

  /** Against the user route: when the fetched rows are the listing, a stored
      user is shown exactly when the search matches its name or email. */
  lemma ListsStoredUsers(store: Accounts.UserStore, users: seq<Row>, search: string, e: Accounts.Email)
    requires forall u :: u in users <==> u in Accounts.ListUsers(store)
    requires e in store
    ensures Accounts.Public(store[e]) in Filtered(users, search) <==>
              ContainsIgnoreCase(store[e].name, search) || ContainsIgnoreCase(store[e].email, search)
  {
    FilteredExactly(users, search, Accounts.Public(store[e]));
  }

  /** `currentUsers`: rows `page * 10 - 10` up to `page * 10` of the filtered
      list. The search does not reset the page. */
  function CurrentUsers(users: seq<Row>, search: string, page: int): (r: seq<Row>)
    ensures |r| <= Pagination.PageSize
    ensures r == Pagination.PageOf(Filtered(users, search), page)
  {
    var l := Filtered(users, search);
    Pagination.LastItemFormulaAgrees(l, page);
    Pagination.PageShape(l, page);
    Seqs.Slice(l, page * Pagination.PageSize - Pagination.PageSize, page * Pagination.PageSize)
  }

  /** Read page by page, the table shows every matching user once, in order. */
  lemma PagesShowEveryMatch(users: seq<Row>, search: string, i: int)
    requires 0 <= i < |Filtered(users, search)|
    ensures var l := Filtered(users, search);
            var page := i / Pagination.PageSize + 1;
            && 1 <= page <= Pagination.TotalPages(|l|)
            && i % Pagination.PageSize < |CurrentUsers(users, search, page)|
            && CurrentUsers(users, search, page)[i % Pagination.PageSize] == l[i]
  {
    Pagination.RowPage(Filtered(users, search), i);
  }

  /** The page buttons are drawn only when the filtered list has more than ten
      users. */
  lemma ButtonsShownIff(users: seq<Row>, search: string)
    ensures Pagination.ControlsShown(|Filtered(users, search)|) <==> |Filtered(users, search)| > Pagination.PageSize
  {
    Pagination.ControlsShownIff(|Filtered(users, search)|);
  }
}
