/** The category product list: the sort selector over the fetched products,
    the result count and which of loader, error, empty state or grid is shown. */
module ProductList {
  import opened Common
  import Sorting
  import Catalog

  /** The options of the sort selector. Any other value falls into the
      `default` branch, which sorts like "newest". */
  datatype SortKey = PriceLowToHigh | PriceHighToLow | ByRating | Newest

  function ParseSortKey(s: string): (k: SortKey)
    ensures s == "price-low-to-high" <==> k == PriceLowToHigh
    ensures s == "price-high-to-low" <==> k == PriceHighToLow
    ensures s == "rating" <==> k == ByRating
    ensures k == Newest <==> s != "price-low-to-high" && s != "price-high-to-low" && s != "rating"
  {
    if s == "price-low-to-high" then PriceLowToHigh
    else if s == "price-high-to-low" then PriceHighToLow
    else if s == "rating" then ByRating
    else Newest
  }

  /** `compare(a, b) <= 0` for each key: ascending price, descending price,
      descending rating, and most recent first. */
  function Comparator(k: SortKey): (Catalog.Product, Catalog.Product) -> bool {
    match k
    case PriceLowToHigh => (a: Catalog.Product, b: Catalog.Product) => a.price <= b.price
    case PriceHighToLow => (a: Catalog.Product, b: Catalog.Product) => b.price <= a.price
    case ByRating => (a: Catalog.Product, b: Catalog.Product) => b.rating <= a.rating
    case Newest => (a: Catalog.Product, b: Catalog.Product) => b.createdAt <= a.createdAt
  }

  /** Each comparator is consistent, so the sort is well defined. */
  lemma ComparatorIsTotalPreorder(k: SortKey)
    ensures Sorting.TotalPreorder(Comparator(k))
  {
  }

  /** `sortedProducts`: a sorted copy of the fetched list; the fetched list is
      not reordered. */
  function SortedProducts(products: seq<Catalog.Product>, sortBy: string): (r: seq<Catalog.Product>)
    ensures |r| == |products|
    ensures multiset(r) == multiset(products)
  {
    Sorting.Sort(products, Comparator(ParseSortKey(sortBy)))
  }

  /** Whatever the key, every earlier product compares no greater than every
      later one: ascending price, descending price, descending rating, or most
      recent first. */
  lemma SortedProductsOrder(products: seq<Catalog.Product>, sortBy: string, i: int, j: int)
    requires 0 <= i <= j < |products|
    ensures var r := SortedProducts(products, sortBy);
            match ParseSortKey(sortBy)
            case PriceLowToHigh => r[i].price <= r[j].price
            case PriceHighToLow => r[i].price >= r[j].price
            case ByRating => r[i].rating >= r[j].rating
            case Newest => r[i].createdAt >= r[j].createdAt
  {
    var le := Comparator(ParseSortKey(sortBy));
    ComparatorIsTotalPreorder(ParseSortKey(sortBy));
    Sorting.SortSorted(products, le);
    Sorting.SortedPairs(Sorting.Sort(products, le), le, i, j);
  }

  /** The count under the title counts the fetched products, which is also the
      number of cards drawn. */
  lemma ResultCountMatchesGrid(products: seq<Catalog.Product>, sortBy: string)
    ensures |SortedProducts(products, sortBy)| == |products|
    ensures forall p :: p in SortedProducts(products, sortBy) <==> p in products
  {
    forall p ensures p in SortedProducts(products, sortBy) <==> p in products {
      Sorting.SortSameElements(products, Comparator(ParseSortKey(sortBy)), p);
    }
  }

  datatype View = Loading | Failed(text: string) | Empty | Grid(cards: seq<Catalog.Product>)

  /** `error` holds the error text, and `""` is falsy like `null`. */
  predicate HasError(error: Option<FetchError>) {
    error.Some? && Truthy(ErrorText(error.value))
  }

  /** The page body: loader, then error, then the empty state, then the grid. */
  function ViewOf(loading: bool, error: Option<FetchError>, products: seq<Catalog.Product>, sortBy: string): (v: View)
    ensures loading <==> v.Loading?
    ensures v.Failed? <==> !loading && HasError(error)
    ensures v.Failed? ==> v.text == ErrorText(error.value)
    ensures v.Empty? <==> !loading && !HasError(error) && |products| == 0
    ensures v.Grid? ==> v.cards == SortedProducts(products, sortBy) && |v.cards| > 0
  {
    if loading then Loading
    else if HasError(error) then Failed(ErrorText(error.value))
    else if |SortedProducts(products, sortBy)| == 0 then Empty
    else Grid(SortedProducts(products, sortBy))
  }
}
