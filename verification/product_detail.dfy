/** The product page: size stock lookups, the quantity selector, the
    add-to-cart guard and the star rendering of the rating. */
module ProductDetail {
  import opened Common
  import Catalog
  import Cart

  /** `sizes.find(s => s.size === tag)`: the index of the first entry with
      that label. */
  function FindSize(sizes: seq<Catalog.SizeStock>, tag: string): (r: Option<nat>)
    ensures r.Some? ==> r.value < |sizes| && sizes[r.value].size == tag
    ensures r.Some? ==> forall j :: 0 <= j < r.value ==> sizes[j].size != tag
    ensures r.None? <==> forall j :: 0 <= j < |sizes| ==> sizes[j].size != tag
    decreases |sizes|
  {
    if |sizes| == 0 then None
    else if sizes[0].size == tag then Some(0)
    else
      match FindSize(sizes[1..], tag)
      case None => None
      case Some(i) => Some(i + 1)
  }

  /** `isSizeInStock(size)`: false with no product loaded; otherwise whether the
      first entry labelled `size` has stock. */
  predicate IsSizeInStock(product: Option<Catalog.Product>, size: string) {
    && product.Some?
    && var i := FindSize(product.value.sizes, size);
       i.Some? && product.value.sizes[i.value].countInStock > 0
  }

  /** `getStockForSelectedSize()`: 0 with no product, no selection or no
      matching entry; else the first matching entry's count. */
  function StockForSelected(product: Option<Catalog.Product>, selected: string): (r: int)
    ensures product.None? || selected == "" ==> r == 0
    ensures product.Some? && selected != "" && FindSize(product.value.sizes, selected).Some? ==>
      r == product.value.sizes[FindSize(product.value.sizes, selected).value].countInStock
    ensures product.Some? && FindSize(product.value.sizes, selected).None? ==> r == 0
  {
    if product.None? || selected == "" then 0
    else
      match FindSize(product.value.sizes, selected)
      case None => 0
      case Some(i) => product.value.sizes[i].countInStock
  }

  /** The two lookups agree: the selected size has positive stock exactly when
      a size is selected and it is in stock. */
  lemma StockAgreesWithInStock(product: Option<Catalog.Product>, selected: string)
    ensures StockForSelected(product, selected) > 0 <==> selected != "" && IsSizeInStock(product, selected)
  {
  }

  /** A size in stock makes the product "In Stock". The converse needs
      distinct size labels: `find` reads only the first entry with a label, so
      a later duplicate with stock is never selectable. */
  lemma InStockLabel(p: Catalog.Product, size: string)
    ensures IsSizeInStock(Some(p), size) ==> Catalog.InStock(p)
    ensures (forall i, j :: 0 <= i < j < |p.sizes| ==> p.sizes[i].size != p.sizes[j].size) && Catalog.InStock(p) ==>
      exists tag :: IsSizeInStock(Some(p), tag)
  {
    if (forall i, j :: 0 <= i < j < |p.sizes| ==> p.sizes[i].size != p.sizes[j].size) && Catalog.InStock(p) {
      var i :| 0 <= i < |p.sizes| && p.sizes[i].countInStock > 0;
      var k := FindSize(p.sizes, p.sizes[i].size);
      assert k.Some? && k.value == i;
      assert IsSizeInStock(Some(p), p.sizes[i].size);
    }
  }

  /** The minus button: `Math.max(1, q - 1)`. */
  function Decrement(q: int): (r: int)
    ensures r >= 1
    ensures q > 1 ==> r == q - 1
  {
    if q - 1 > 1 then q - 1 else 1
  }

  /** The plus button: `Math.min(stock, q + 1)`. */
  function Increment(q: int, stock: int): (r: int)
    ensures r <= stock
    ensures q + 1 <= stock ==> r == q + 1
  {
    if stock < q + 1 then stock else q + 1
  }

  /** The plus button is enabled unless `quantity >= stock` or no size is selected. */
  predicate IncrementEnabled(q: int, stock: int, selected: string) {
    !(q >= stock || selected == "")
  }

  /** From a quantity of at least 1, minus never goes below 1, and an enabled
      plus adds exactly one and never passes the selected size's stock. */
  lemma QuantityStaysInRange(q: int, product: Option<Catalog.Product>, selected: string)
    requires 1 <= q
    ensures Decrement(q) >= 1
    ensures var stock := StockForSelected(product, selected);
      IncrementEnabled(q, stock, selected) ==> Increment(q, stock) == q + 1 && 1 <= Increment(q, stock) <= stock
  {
  }

  /** `handleAddToCart`: without both a size and a colour selected the cart is
      left alone; otherwise the chosen quantity goes into the cart. */
  function HandleAddToCart(cart: Cart.CartItems, p: Catalog.Product, size: string, color: string, quantity: int)
    : (r: Cart.CartItems)
    ensures size == "" || color == "" ==> r == cart
    ensures size != "" && color != "" ==> Cart.HasKey(r, Cart.Key(p.id, size, color))
  {
    if size == "" || color == "" then cart
    else Cart.AddToCart(cart, p, size, color, Some(quantity))
  }

  /** The page starts with no size and no colour selected, so an immediate
      add changes nothing. */
  lemma AddWithoutSelectionIsNoOp(cart: Cart.CartItems, p: Catalog.Product)
    ensures HandleAddToCart(cart, p, "", "", 1) == cart
  {
  }

  /** The icons `renderStars` draws: full, half and empty stars. */
  datatype Stars = Stars(full: int, half: bool, empty: int)

  function RenderStars(rating: real): (s: Stars)
    ensures s.full as real <= rating < s.full as real + 1.0
    ensures s.half <==> rating - s.full as real >= 0.5
    ensures s.full + (if s.half then 1 else 0) + s.empty == 5
  {
    var full := rating.Floor;
    var half := rating - full as real >= 0.5;
    Stars(full, half, 5 - full - (if half then 1 else 0))
  }

  /** A `for (i = 0; i < n; i++)` loop draws `max(n, 0)` icons. */
  function Drawn(n: int): nat {
    if n > 0 then n else 0
  }

  function IconCount(s: Stars): nat {
    Drawn(s.full) + (if s.half then 1 else 0) + Drawn(s.empty)
  }

  /** A rating in `[0, 5]` draws exactly five icons; a rating of 5.5 or more
      draws more than five. */
  lemma FiveStars(rating: real)
    ensures 0.0 <= rating <= 5.0 ==> IconCount(RenderStars(rating)) == 5
    ensures rating >= 5.5 ==> IconCount(RenderStars(rating)) > 5
  {
  }

  /** When every review's rating is in `[0, 5]`, a consistent product's
      rating draws exactly five icons. */
  lemma ConsistentProductDrawsFiveStars(p: Catalog.Product)
    requires Catalog.RatingsConsistent(p)
    requires forall i :: 0 <= i < |p.reviews| ==> 0.0 <= p.reviews[i].rating <= 5.0
    ensures IconCount(RenderStars(p.rating)) == 5
  {
    Catalog.MeanRatingBounds(p.reviews, 0.0, 5.0);
    FiveStars(p.rating);
  }
}
