/** The admin order list: the status filter and search over the fetched
    orders, the sort selector, the page of rows shown, the page resets, and the
    two ways of changing an order's status (inline select and modal). */
module OrdersList {
  import opened Common
  import opened Text
  import Seqs
  import Sorting
  import Pagination
  import Orders

  type Row = Orders.ListedOrder

  /** The populated user's name lower-cased, or "" when the order has no user
      or the user has an empty name. */
  function UserNameLower(row: Row): (r: string)
    ensures row.user.Some? && Truthy(row.user.value.name) ==> r == ToLower(row.user.value.name)
    ensures row.user.None? || !Truthy(row.user.value.name) ==> r == ""
  {
    if row.user.Some? && Truthy(row.user.value.name) then ToLower(row.user.value.name) else ""
  }

  /** The filter callback: the status matches (or the filter is "all"), and the
      lower-cased query occurs in the lower-cased order id or user name. */
  predicate Matches(statusFilter: string, query: string, row: Row) {
    && (statusFilter == "all" || row.order.status == statusFilter)
    && (Contains(ToLower(row.order.id), ToLower(query)) || Contains(UserNameLower(row), ToLower(query)))
  }

  function Matcher(statusFilter: string, query: string): Row -> bool {
    row => Matches(statusFilter, query, row)
  }

  function Filtered(rows: seq<Row>, statusFilter: string, query: string): (r: seq<Row>)
    ensures |r| <= |rows|
    ensures forall i :: 0 <= i < |r| ==> Matches(statusFilter, query, r[i])
  {
    Seqs.Filter(rows, Matcher(statusFilter, query))
  }

  /** A row is listed exactly when it was fetched and it matches. */
  lemma FilteredExactly(rows: seq<Row>, statusFilter: string, query: string, row: Row)
    ensures row in Filtered(rows, statusFilter, query) <==> row in rows && Matches(statusFilter, query, row)
  {
    Seqs.FilterMembers(rows, Matcher(statusFilter, query));
  }

  /** The initial filter ("all") with an empty search lists every fetched row,
      in fetch order. */
  lemma InitialFilterKeepsAll(rows: seq<Row>)
    ensures Filtered(rows, "all", "") == rows
  {
    forall i | 0 <= i < |rows| ensures Matcher("all", "")(rows[i]) {
      ContainsEmpty(ToLower(rows[i].order.id));
    }
    Seqs.FilterAll(rows, Matcher("all", ""));
  }

  /** A status filter other than "all" lists only orders with that exact status. */
  lemma StatusFilterIsExact(rows: seq<Row>, statusFilter: string, query: string, i: int)
    requires statusFilter != "all"
    requires 0 <= i < |Filtered(rows, statusFilter, query)|
    ensures Filtered(rows, statusFilter, query)[i].order.status == statusFilter
  {
  }

  /** The four options of the sort selector; any other value compares every
      pair as equal. */
  datatype SortKey = CreatedAtDesc | CreatedAtAsc | TotalPriceDesc | TotalPriceAsc | Unsorted

  function ParseSortKey(s: string): (k: SortKey)
    ensures s == "createdAtDesc" <==> k == CreatedAtDesc
    ensures s == "createdAtAsc" <==> k == CreatedAtAsc
    ensures s == "totalPriceDesc" <==> k == TotalPriceDesc
    ensures s == "totalPriceAsc" <==> k == TotalPriceAsc
  {
    if s == "createdAtDesc" then CreatedAtDesc
    else if s == "createdAtAsc" then CreatedAtAsc
    else if s == "totalPriceDesc" then TotalPriceDesc
    else if s == "totalPriceAsc" then TotalPriceAsc
    else Unsorted
  }

  function Comparator(k: SortKey): (Row, Row) -> bool {
    match k
    case CreatedAtDesc => (a: Row, b: Row) => b.order.createdAt <= a.order.createdAt
    case CreatedAtAsc => (a: Row, b: Row) => a.order.createdAt <= b.order.createdAt
    case TotalPriceDesc => (a: Row, b: Row) => b.order.totalPrice <= a.order.totalPrice
    case TotalPriceAsc => (a: Row, b: Row) => a.order.totalPrice <= b.order.totalPrice
    case Unsorted => (a: Row, b: Row) => true
  }

  lemma ComparatorIsTotalPreorder(k: SortKey)
    ensures Sorting.TotalPreorder(Comparator(k))
  {
  }

  /** `filteredOrders`: the matching rows, sorted. */
  function Listed(rows: seq<Row>, statusFilter: string, query: string, sortBy: string): (r: seq<Row>)
    ensures |r| == |Filtered(rows, statusFilter, query)|
    ensures multiset(r) == multiset(Filtered(rows, statusFilter, query))
  {
    Sorting.Sort(Filtered(rows, statusFilter, query), Comparator(ParseSortKey(sortBy)))
  }

  /** The listed rows are the matching rows in the selected order: newest,
      oldest, dearest or cheapest first; with an unknown key, fetch order. */
  lemma ListedOrder(rows: seq<Row>, statusFilter: string, query: string, sortBy: string, i: int, j: int)
    requires 0 <= i <= j < |Listed(rows, statusFilter, query, sortBy)|
    ensures var r := Listed(rows, statusFilter, query, sortBy);
            match ParseSortKey(sortBy)
            case CreatedAtDesc => r[i].order.createdAt >= r[j].order.createdAt
            case CreatedAtAsc => r[i].order.createdAt <= r[j].order.createdAt
            case TotalPriceDesc => r[i].order.totalPrice >= r[j].order.totalPrice
            case TotalPriceAsc => r[i].order.totalPrice <= r[j].order.totalPrice
            case Unsorted => r == Filtered(rows, statusFilter, query)
  {
    var f := Filtered(rows, statusFilter, query);
    var le := Comparator(ParseSortKey(sortBy));
    if ParseSortKey(sortBy) == Unsorted {
      Sorting.SortAllEqualIsIdentity(f, le);
    } else {
      ComparatorIsTotalPreorder(ParseSortKey(sortBy));
      Sorting.SortSorted(f, le);
      Sorting.SortedPairs(Sorting.Sort(f, le), le, i, j);
    }
  }

  /** The list controls and the current page. */
  datatype Controls = Controls(query: string, statusFilter: string, sortBy: string, page: int)

  const InitialControls := Controls("", "all", "createdAtDesc", 1)

  /** Typing in the search box and changing the status filter go back to
      page 1; changing the sort keeps the page. */
  function OnSearch(c: Controls, q: string): Controls {
    c.(query := q, page := 1)
  }

  function OnStatusFilter(c: Controls, s: string): Controls {
    c.(statusFilter := s, page := 1)
  }

  function OnSort(c: Controls, s: string): Controls {
    c.(sortBy := s)
  }

  /** `currentOrders`: the rows on the current page. */
  function CurrentRows(rows: seq<Row>, c: Controls): (r: seq<Row>)
    ensures |r| <= Pagination.PageSize
  {
    Pagination.PageShape(Listed(rows, c.statusFilter, c.query, c.sortBy), c.page);
    Pagination.PageOf(Listed(rows, c.statusFilter, c.query, c.sortBy), c.page)
  }

  /** After a new search or filter the first rows of the new list are shown:
      the page is never left pointing past the end of a shorter list. A new
      sort keeps the page and reorders the same matching rows. */
  lemma SearchShowsFirstPage(rows: seq<Row>, c: Controls, q: string, s: string)
    ensures var l := Listed(rows, c.statusFilter, q, c.sortBy);
            CurrentRows(rows, OnSearch(c, q)) == l[..if |l| < Pagination.PageSize then |l| else Pagination.PageSize]
    ensures var l := Listed(rows, s, c.query, c.sortBy);
            CurrentRows(rows, OnStatusFilter(c, s)) == l[..if |l| < Pagination.PageSize then |l| else Pagination.PageSize]
    ensures OnSort(c, s).page == c.page
    ensures multiset(Listed(rows, c.statusFilter, c.query, s)) == multiset(Listed(rows, c.statusFilter, c.query, c.sortBy))
  {
    Pagination.PagesUpToIsPrefix(Listed(rows, c.statusFilter, q, c.sortBy), 1);
    Pagination.PagesUpToIsPrefix(Listed(rows, s, c.query, c.sortBy), 1);
  }

  /** The page body: loader, error, "No orders found." for an empty list,
      else the current page of rows with the page buttons. */
  datatype View = Loading | Failed(text: string) | NoOrders | Table(rows: seq<Row>, totalPages: nat)

  predicate HasError(error: Option<FetchError>) {
    error.Some? && Truthy(ErrorText(error.value))
  }

  function ViewOf(loading: bool, error: Option<FetchError>, rows: seq<Row>, c: Controls): (v: View)
    ensures loading <==> v.Loading?
    ensures v.Failed? <==> !loading && HasError(error)
    ensures v.NoOrders? <==> !loading && !HasError(error) && |Listed(rows, c.statusFilter, c.query, c.sortBy)| == 0
    ensures v.Table? ==> v.rows == CurrentRows(rows, c) && v.totalPages >= 1
  {
    var l := Listed(rows, c.statusFilter, c.query, c.sortBy);
    if loading then Loading
    else if HasError(error) then Failed(ErrorText(error.value))
    else if |l| == 0 then NoOrders
    else Table(CurrentRows(rows, c), Pagination.TotalPages(|l|))
  }

  // ---------------------------------------------------------------------------
  // Status changes.
  // ---------------------------------------------------------------------------

  /** The local update after a successful status request: every row with that
      order id takes the status the server answered with. */
  function ApplyStatus(rows: seq<Row>, id: Orders.OrderId, status: string): (r: seq<Row>)
    ensures |r| == |rows|
    ensures forall i :: 0 <= i < |rows| && rows[i].order.id == id ==>
      r[i] == rows[i].(order := rows[i].order.(status := status))
    ensures forall i :: 0 <= i < |rows| && rows[i].order.id != id ==> r[i] == rows[i]
  {
    seq(|rows|, i requires 0 <= i < |rows| =>
      if rows[i].order.id == id then rows[i].(order := rows[i].order.(status := status)) else rows[i])
  }

  /** After a successful request the local rows for that order show the status
      the store now holds, and no other row changes. */
  lemma ApplyStatusAgreesWithStore(rows: seq<Row>, store: Orders.OrderStore, id: Orders.OrderId,
                                   status: string, accepts: string -> bool, now: int)
    ensures var reply := Orders.SetOrderStatus(store, id, status, accepts, now);
            reply.response.Ok? ==>
              var r := ApplyStatus(rows, id, reply.response.body.status);
              forall i :: 0 <= i < |rows| ==>
                (rows[i].order.id == id ==> r[i].order.status == reply.store[id].status) &&
                (rows[i].order.id != id ==> r[i] == rows[i])
  {
  }

  /** The modal's save button: the request it sends, if any. Nothing is sent
      without a selected order or when the chosen status is the current one. */
  datatype StatusRequest = StatusRequest(id: Orders.OrderId, status: string)

  function SaveModalStatus(selected: Option<Row>, modalStatus: string): (r: Option<StatusRequest>)
    ensures r.Some? <==> selected.Some? && modalStatus != selected.value.order.status
    ensures r.Some? ==> r.value == StatusRequest(selected.value.order.id, modalStatus)
  {
    if selected.None? then None
    else if modalStatus == selected.value.order.status then None
    else Some(StatusRequest(selected.value.order.id, modalStatus))
  }

  /** Opening the modal preselects the order's own status, so saving straight
      away sends nothing. */
  lemma OpenThenSaveSendsNothing(row: Row)
    ensures SaveModalStatus(Some(row), row.order.status).None?
  {
  }

  /** The inline select sends whatever option is chosen, one of the five
      lower-case statuses. */
  function InlineStatusRequest(row: Row, choice: int): (r: StatusRequest)
    requires 0 <= choice < |Orders.AdminStatusOptions|
    ensures r.id == row.order.id && r.status in Orders.AdminStatusOptions
  {
    StatusRequest(row.order.id, Orders.AdminStatusOptions[choice])
  }
}
