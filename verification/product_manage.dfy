/** The admin product table: search and category filter, the sort selector,
    the page shown, the stock label, and the confirmed delete. */
module ProductManage {
  import opened Common
  import opened Text
  import Seqs
  import Sorting
  import Pagination
  import Catalog

  /** The filter callback: the query occurs in the name or the brand,
      ignoring case, and the category is "" or equal to the product's. */
  predicate Matches(search: string, category: string, p: Catalog.Product) {
    && (ContainsIgnoreCase(p.name, search) || ContainsIgnoreCase(p.brand, search))
    && (category == "" || Catalog.CategoryName(p.category) == category)
  }

  function Matcher(search: string, category: string): Catalog.Product -> bool {
    p => Matches(search, category, p)
  }

  function Filtered(products: seq<Catalog.Product>, search: string, category: string): (r: seq<Catalog.Product>)
    ensures |r| <= |products|
    ensures forall i :: 0 <= i < |r| ==> Matches(search, category, r[i])
  {
    Seqs.Filter(products, Matcher(search, category))
  }

  /** A product is listed exactly when it was fetched and it matches; with no
      search and "All Categories" every product is listed in fetch order. */
  lemma FilteredExactly(products: seq<Catalog.Product>, search: string, category: string, p: Catalog.Product)
    ensures p in Filtered(products, search, category) <==> p in products && Matches(search, category, p)
    ensures Filtered(products, "", "") == products
  {
    Seqs.FilterMembers(products, Matcher(search, category));
    forall i | 0 <= i < |products| ensures Matcher("", "")(products[i]) {
      ContainsEmpty(ToLower(products[i].name));
    }
    Seqs.FilterAll(products, Matcher("", ""));
  }

  /** The options of the sort selector; any other value sorts like "newest". */
  datatype SortKey = NameAsc | NameDesc | PriceLowHigh | PriceHighLow | Newest

  function ParseSortKey(s: string): (k: SortKey)
    ensures s == "name-asc" <==> k == NameAsc
    ensures s == "name-desc" <==> k == NameDesc
    ensures s == "price-low-high" <==> k == PriceLowHigh
    ensures s == "price-high-low" <==> k == PriceHighLow
  {
    if s == "name-asc" then NameAsc
    else if s == "name-desc" then NameDesc
    else if s == "price-low-high" then PriceLowHigh
    else if s == "price-high-low" then PriceHighLow
    else Newest
  }

  /** Names compare with `Sorting.LexLe`, which stands in for `localeCompare`. */
  function Comparator(k: SortKey): (Catalog.Product, Catalog.Product) -> bool {
    match k
    case NameAsc => (a: Catalog.Product, b: Catalog.Product) => Sorting.LexLe(a.name, b.name)
    case NameDesc => (a: Catalog.Product, b: Catalog.Product) => Sorting.LexLe(b.name, a.name)
    case PriceLowHigh => (a: Catalog.Product, b: Catalog.Product) => a.price <= b.price
    case PriceHighLow => (a: Catalog.Product, b: Catalog.Product) => b.price <= a.price
    case Newest => (a: Catalog.Product, b: Catalog.Product) => b.createdAt <= a.createdAt
  }

  lemma ComparatorIsTotalPreorder(k: SortKey)
    ensures Sorting.TotalPreorder(Comparator(k))
  {
    if k == NameAsc || k == NameDesc {
      var le := Comparator(k);
      forall a: Catalog.Product, b: Catalog.Product ensures le(a, b) || le(b, a) {
        Sorting.LexLeTotal(a.name, b.name);
      }
      forall a: Catalog.Product, b: Catalog.Product, c: Catalog.Product | le(a, b) && le(b, c)
        ensures le(a, c)
      {
        if k == NameAsc {
          Sorting.LexLeTransitive(a.name, b.name, c.name);
        } else {
          Sorting.LexLeTransitive(c.name, b.name, a.name);
        }
      }
    }
  }

  /** `filteredProducts`: the matching products, sorted. */
  function Listed(products: seq<Catalog.Product>, search: string, category: string, sortBy: string)
    : (r: seq<Catalog.Product>)
    ensures multiset(r) == multiset(Filtered(products, search, category))
  {
    Sorting.Sort(Filtered(products, search, category), Comparator(ParseSortKey(sortBy)))
  }

  /** Earlier rows never come after later ones in the selected order. */
  lemma ListedOrder(products: seq<Catalog.Product>, search: string, category: string, sortBy: string, i: int, j: int)
    requires 0 <= i <= j < |Listed(products, search, category, sortBy)|
    ensures var r := Listed(products, search, category, sortBy);
            match ParseSortKey(sortBy)
            case NameAsc => Sorting.LexLe(r[i].name, r[j].name)
            case NameDesc => Sorting.LexLe(r[j].name, r[i].name)
            case PriceLowHigh => r[i].price <= r[j].price
            case PriceHighLow => r[i].price >= r[j].price
            case Newest => r[i].createdAt >= r[j].createdAt
  {
    var f := Filtered(products, search, category);
    var le := Comparator(ParseSortKey(sortBy));
    ComparatorIsTotalPreorder(ParseSortKey(sortBy));
    Sorting.SortSorted(f, le);
    Sorting.SortedPairs(Sorting.Sort(f, le), le, i, j);
  }

  /** The controls and the current page. Unlike the order list, a new search
      or category does not reset the page. */
  datatype Controls = Controls(search: string, category: string, sortBy: string, page: int)

  const InitialControls := Controls("", "", "newest", 1)

  function OnSearch(c: Controls, q: string): Controls {
    c.(search := q)
  }

  function OnCategory(c: Controls, cat: string): Controls {
    c.(category := cat)
  }

  /** `currentItems`: rows `page * 10 - 10` up to `page * 10`. */
  function CurrentItems(products: seq<Catalog.Product>, c: Controls): (r: seq<Catalog.Product>)
    ensures |r| <= Pagination.PageSize
    ensures r == Pagination.PageOf(Listed(products, c.search, c.category, c.sortBy), c.page)
  {
    var l := Listed(products, c.search, c.category, c.sortBy);
    Pagination.LastItemFormulaAgrees(l, c.page);
    Pagination.PageShape(l, c.page);
    Seqs.Slice(l, c.page * Pagination.PageSize - Pagination.PageSize, c.page * Pagination.PageSize)
  }

  /** A search that leaves fewer pages than the current page number shows no
      rows at all, because the page is not reset. */
  lemma StalePageShowsNoRows(products: seq<Catalog.Product>, c: Controls, q: string)
    requires c.page > Pagination.TotalPages(|Listed(products, q, c.category, c.sortBy)|)
    ensures OnSearch(c, q).page == c.page
    ensures CurrentItems(products, OnSearch(c, q)) == []
  {
    var l := Listed(products, q, c.category, c.sortBy);
    Pagination.TotalPagesIsCeiling(|l|);
    Seqs.SliceInRange(l, (c.page - 1) * Pagination.PageSize, (c.page - 1) * Pagination.PageSize + Pagination.PageSize);
  }

  /** The page buttons: `paginate(page - 1)` and `paginate(page + 1)`, disabled
      on the first and on the last page. */
  predicate PrevEnabled(page: int) {
    page != 1
  }

  predicate NextEnabled(page: int, totalPages: int) {
    page != totalPages
  }

  /** From a page in range, an enabled button stays in range. From a page
      past the last one, "next" stays enabled and moves further away. */
  lemma PageButtons(page: int, totalPages: int)
    ensures 1 <= page <= totalPages && PrevEnabled(page) ==> 1 <= page - 1 <= totalPages
    ensures 1 <= page <= totalPages && NextEnabled(page, totalPages) ==> 1 <= page + 1 <= totalPages
    ensures page > totalPages ==> NextEnabled(page, totalPages) && page + 1 > totalPages
  {
  }

  /** The stock column: "In Stock" when some size has stock. */
  function StockLabel(p: Catalog.Product): (r: string)
    ensures r == "In Stock" <==> Catalog.InStock(p)
    ensures r == "In Stock" || r == "Out of Stock"
  {
    if exists i :: 0 <= i < |p.sizes| && p.sizes[i].countInStock > 0 then "In Stock" else "Out of Stock"
  }

  // ---------------------------------------------------------------------------
  // Delete.
  // ---------------------------------------------------------------------------

  /** The confirmation modal: open, and the id it will delete ("" when none). */
  datatype DeleteState = DeleteState(products: seq<Catalog.Product>, confirmOpen: bool, deleteId: string)

  function OpenDeleteModal(s: DeleteState, id: string): DeleteState {
    s.(confirmOpen := true, deleteId := id)
  }

  function CloseDeleteModal(s: DeleteState): DeleteState {
    s.(confirmOpen := false, deleteId := "")
  }

  function NotId(id: string): Catalog.Product -> bool {
    (p: Catalog.Product) => p.id != id
  }

  /** `handleDelete`, given whether the request succeeded: with no id nothing
      happens; on success every fetched product with that id is dropped and the
      modal closes; on failure nothing changes. */
  function HandleDelete(s: DeleteState, succeeded: bool): (r: DeleteState)
    ensures s.deleteId == "" || !succeeded ==> r == s
    ensures s.deleteId != "" && succeeded ==>
      && !r.confirmOpen && r.deleteId == ""
      && (forall i :: 0 <= i < |r.products| ==> r.products[i].id != s.deleteId)
      && (forall p :: p in r.products <==> p in s.products && p.id != s.deleteId)
  {
    if s.deleteId == "" then s
    else if !succeeded then s
    else
      Seqs.FilterMembers(s.products, NotId(s.deleteId));
      DeleteState(Seqs.Filter(s.products, NotId(s.deleteId)), false, "")
  }

  /** Deleting through the product route: a product that is stored disappears
      both from the store and from the table; one that is not gives 404 and the
      table is left alone. */
  lemma DeleteAgreesWithStore(store: Catalog.ProductStore, s: DeleteState)
    requires s.deleteId != ""
    ensures var reply := Catalog.DeleteProduct(store, s.deleteId);
            var r := HandleDelete(s, reply.response.Ok?);
            && s.deleteId !in reply.store
            && (s.deleteId in store ==> forall p :: p in r.products ==> p.id != s.deleteId)
            && (s.deleteId !in store ==> r == s && reply.store == store)
  {
  }
}
