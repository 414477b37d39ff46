/** The catalog store: the product document with its embedded sizes, colours
    and reviews, and the product route handlers (list, get, create, update,
    delete, add review). The database is a map from product id to product;
    each handler is one atomic step returning the new map and the response. */
module Catalog {
  import opened Common
  import opened Text
  import Seqs

  type ProductId = string
  type UserId = string
  type AdminId = string

  /** The closed category enum. */
  datatype Category = Men | Women | Kids

  function CategoryName(c: Category): string {
    match c
    case Men => "Men"
    case Women => "Women"
    case Kids => "Kids"
  }

  /** Casting a request string to the enum; anything else fails validation. */
  function ParseCategory(s: string): (r: Option<Category>)
    ensures r.Some? ==> CategoryName(r.value) == s
    ensures r.None? ==> forall c: Category :: CategoryName(c) != s
  {
    if s == "Men" then Some(Men)
    else if s == "Women" then Some(Women)
    else if s == "Kids" then Some(Kids)
    else None
  }

  /** The enum's names and values are in one-to-one correspondence. */
  lemma CategoryRoundTrip(c: Category, s: string)
    ensures ParseCategory(CategoryName(c)) == Some(c)
    ensures ParseCategory(s).Some? <==> s == "Men" || s == "Women" || s == "Kids"
  {
  }

  datatype Review = Review(name: string, rating: real, comment: string, user: UserId)

  datatype SizeStock = SizeStock(size: string, countInStock: int)

  /** A size's count as a request carries it: absent (the schema default 0
      applies), `null` (what JSON makes of NaN; the default does not apply and
      the `required` validator refuses it), or a number. */
  datatype Count = Missing | Null | Num(n: int)

  /** A size entry as a request supplies it. */
  datatype SizeInput = SizeInput(size: string, countInStock: Count)

  datatype Color = Color(name: string, hex: string)

  datatype Product = Product(
    id: ProductId,
    admin: AdminId,
    name: string,
    images: seq<string>,
    brand: string,
    category: Category,
    description: string,
    reviews: seq<Review>,
    rating: real,
    numReviews: int,
    price: int,
    sizes: seq<SizeStock>,
    colors: seq<Color>,
    createdAt: int)

  function WithStockDefault(s: SizeInput): SizeStock {
    SizeStock(s.size, if s.countInStock.Num? then s.countInStock.n else 0)
  }

  /** Applies the schema default to every size entry whose count is absent. */
  function SizesWithDefaults(ss: seq<SizeInput>): (r: seq<SizeStock>)
    ensures |r| == |ss|
    ensures forall i :: 0 <= i < |ss| ==> r[i].size == ss[i].size
    ensures forall i :: 0 <= i < |ss| && ss[i].countInStock.Num? ==> r[i].countInStock == ss[i].countInStock.n
    ensures forall i :: 0 <= i < |ss| && ss[i].countInStock.Missing? ==> r[i].countInStock == 0
  {
    seq(|ss|, i requires 0 <= i < |ss| => WithStockDefault(ss[i]))
  }

  /** The schema's `required` validators: a required string must be non-empty. */
  predicate ReviewValid(r: Review) {
    r.name != "" && r.comment != "" && r.user != ""
  }

  predicate SchemaValid(p: Product) {
    && p.admin != ""
    && p.name != ""
    && p.brand != ""
    && p.description != ""
    && (forall i :: 0 <= i < |p.images| ==> p.images[i] != "")
    && (forall i :: 0 <= i < |p.sizes| ==> p.sizes[i].size != "")
    && (forall i :: 0 <= i < |p.colors| ==> p.colors[i].name != "" && p.colors[i].hex != "")
    && (forall i :: 0 <= i < |p.reviews| ==> ReviewValid(p.reviews[i]))
  }

  /** `product.sizes.some(s => s.countInStock > 0)`: the "In Stock" label. */
  predicate InStock(p: Product) {
    exists i :: 0 <= i < |p.sizes| && p.sizes[i].countInStock > 0
  }

  // ---------------------------------------------------------------------------
  // Review statistics.
  // ---------------------------------------------------------------------------

  /** The sum of the ratings. */
  function RatingTotal(rs: seq<Review>): real {
    if |rs| == 0 then 0.0 else rs[0].rating + RatingTotal(rs[1..])
  }

  /** `reviews.reduce((acc, item) => item.rating + acc, acc)`. */
  function FoldRatings(acc: real, rs: seq<Review>): real
    decreases |rs|
  {
    if |rs| == 0 then acc else FoldRatings(rs[0].rating + acc, rs[1..])
  }

  /** The source's left fold computes the sum of the ratings. */
  lemma {:induction false} FoldIsTotal(acc: real, rs: seq<Review>)
    ensures FoldRatings(acc, rs) == acc + RatingTotal(rs)
    decreases |rs|
  {
    if |rs| > 0 {
      FoldIsTotal(rs[0].rating + acc, rs[1..]);
    }
  }

  lemma {:induction false} RatingTotalAppend(rs: seq<Review>, r: Review)
    ensures RatingTotal(rs + [r]) == RatingTotal(rs) + r.rating
  {
    if |rs| > 0 {
      RatingTotalAppend(rs[1..], r);
      assert (rs + [r])[1..] == rs[1..] + [r];
    }
  }

  /** The arithmetic mean of the ratings; 0 for no reviews, the schema default. */
  function MeanRating(rs: seq<Review>): real {
    if |rs| == 0 then 0.0 else RatingTotal(rs) / (|rs| as real)
  }

  /** A mean lies within the bounds of the ratings it averages. */
  lemma MeanRatingBounds(rs: seq<Review>, lo: real, hi: real)
    requires lo <= 0.0 <= hi
    requires forall i :: 0 <= i < |rs| ==> lo <= rs[i].rating <= hi
    ensures lo <= MeanRating(rs) <= hi
  {
    if |rs| > 0 {
      TotalBounds(rs, lo, hi);
      var n := |rs| as real;
      assert lo * n <= RatingTotal(rs) <= hi * n;
    }
  }

  lemma {:induction false} TotalBounds(rs: seq<Review>, lo: real, hi: real)
    requires forall i :: 0 <= i < |rs| ==> lo <= rs[i].rating <= hi
    ensures lo * (|rs| as real) <= RatingTotal(rs) <= hi * (|rs| as real)
    decreases |rs|
  {
    if |rs| > 0 {
      TotalBounds(rs[1..], lo, hi);
    }
  }

  /** `rating` and `numReviews` agree with the embedded reviews. */
  ghost predicate RatingsConsistent(p: Product) {
    p.numReviews == |p.reviews| && p.rating == MeanRating(p.reviews)
  }

  /** No user has two reviews on the product. */
  ghost predicate OneReviewPerUser(p: Product) {
    forall i, j :: 0 <= i < j < |p.reviews| ==> p.reviews[i].user != p.reviews[j].user
  }

  predicate HasReviewBy(p: Product, user: UserId) {
    exists i :: 0 <= i < |p.reviews| && p.reviews[i].user == user
  }

  // ---------------------------------------------------------------------------
  // The store and its invariant.
  // ---------------------------------------------------------------------------

  type ProductStore = map<ProductId, Product>

  /** Every stored product is valid, filed under its own id, with consistent
      review statistics and at most one review per user. */
  ghost predicate StoreInvariant(store: ProductStore) {
    forall k :: k in store ==>
      && store[k].id == k
      && SchemaValid(store[k])
      && RatingsConsistent(store[k])
      && OneReviewPerUser(store[k])
  }

  const NotFoundMessage := "Product not found"
  const ValidationMessage := "Product validation failed"

  /** The fields a create or update request may carry. A string field holds ""
      for every falsy value (missing, null, ""); `price` is None when missing;
      the list fields are None when missing, and an empty list is a present,
      truthy value. */
  datatype ProductInput = ProductInput(
    name: string,
    brand: string,
    category: string,
    description: string,
    price: Option<int>,
    images: Option<seq<string>>,
    sizes: Option<seq<SizeInput>>,
    colors: Option<seq<Color>>)

  /** No size entry carries a `null` count. */
  predicate CountsPresent(ss: seq<SizeInput>) {
    forall i :: 0 <= i < |ss| ==> !ss[i].countInStock.Null?
  }

  /** The lists a request carries pass the schema's `required` validators: no
      empty image path, size tag or colour field, and no `null` count. A
      missing list is not checked. */
  predicate ListsValid(input: ProductInput) {
    && (input.images.Some? ==> forall i :: 0 <= i < |input.images.value| ==> input.images.value[i] != "")
    && (input.sizes.Some? ==>
          forall i :: 0 <= i < |input.sizes.value| ==>
            input.sizes.value[i].size != "" && !input.sizes.value[i].countInStock.Null?)
    && (input.colors.Some? ==>
          forall i :: 0 <= i < |input.colors.value| ==>
            input.colors.value[i].name != "" && input.colors.value[i].hex != "")
  }

  // ---------------------------------------------------------------------------
  // Handlers.
  // ---------------------------------------------------------------------------

  /** `POST /api/products`: builds the document with the caller as owner and the
      schema defaults (no reviews, rating 0, price 0 when missing), and saves it
      if it validates. */
  function CreateProduct(store: ProductStore, newId: ProductId, caller: AdminId, input: ProductInput, now: int)
    : (r: Reply<ProductStore, Product>)
    requires newId !in store
    ensures r.response.Ok? <==>
      && ParseCategory(input.category).Some?
      && caller != "" && input.name != "" && input.brand != "" && input.description != ""
      && ListsValid(input)
    ensures r.response.Ok? ==>
      && r.response.status == 201
      && r.store == store[newId := r.response.body]
      && var p := r.response.body;
         && p.id == newId && p.admin == caller && p.createdAt == now
         && p.name == input.name && p.brand == input.brand && p.description == input.description
         && CategoryName(p.category) == input.category
         && p.price == input.price.GetOr(0)
         && p.images == input.images.GetOr([])
         && p.sizes == SizesWithDefaults(input.sizes.GetOr([]))
         && p.colors == input.colors.GetOr([])
         && p.reviews == [] && p.rating == 0.0 && p.numReviews == 0
         && SchemaValid(p) && RatingsConsistent(p) && OneReviewPerUser(p)
    ensures r.response.Error? ==> r == Reply(store, Error(500, ValidationMessage))
  {
    match ParseCategory(input.category)
    case None => Reply(store, Error(500, ValidationMessage))
    case Some(cat) =>
      var p := Product(newId, caller, input.name, input.images.GetOr([]), input.brand, cat,
                       input.description, [], 0.0, 0, input.price.GetOr(0),
                       SizesWithDefaults(input.sizes.GetOr([])), input.colors.GetOr([]), now);
      ValidIffListsValid(p, input);
      if SchemaValid(p) && CountsPresent(input.sizes.GetOr([])) then Reply(store[newId := p], Ok(201, p))
      else Reply(store, Error(500, ValidationMessage))
  }

  /** A product carrying a request's lists (or keeping its own where the
      request has none) passes the schema exactly when its scalar fields and
      reviews do and the request's lists are valid. */
  lemma ValidIffListsValid(p: Product, input: ProductInput)
    requires input.images.Some? ==> p.images == input.images.value
    requires input.sizes.Some? ==> p.sizes == SizesWithDefaults(input.sizes.value)
    requires input.colors.Some? ==> p.colors == input.colors.value
    ensures SchemaValid(p) && (input.sizes.Some? ==> CountsPresent(input.sizes.value)) <==>
      && p.admin != "" && p.name != "" && p.brand != "" && p.description != ""
      && (input.images.None? ==> forall i :: 0 <= i < |p.images| ==> p.images[i] != "")
      && (input.sizes.None? ==> forall i :: 0 <= i < |p.sizes| ==> p.sizes[i].size != "")
      && (input.colors.None? ==> forall i :: 0 <= i < |p.colors| ==> p.colors[i].name != "" && p.colors[i].hex != "")
      && (forall i :: 0 <= i < |p.reviews| ==> ReviewValid(p.reviews[i]))
      && ListsValid(input)
  {
  }

  /** The `GET /api/products` query: exact category when one is given, and a
      case-insensitive name match when a keyword is given. */
  predicate MatchesQuery(p: Product, category: string, keyword: string) {
    && (category == "" || CategoryName(p.category) == category)
    && (keyword == "" || ContainsIgnoreCase(p.name, keyword))
  }

  function ListProducts(store: ProductStore, category: string, keyword: string): (r: set<Product>)
    ensures r <= store.Values
  {
    set p | p in store.Values && MatchesQuery(p, category, keyword)
  }

  /** The two filters are independent: a query with both lists exactly the
      products that each filter alone lists. */
  lemma ListProductsIntersect(store: ProductStore, category: string, keyword: string)
    ensures ListProducts(store, category, keyword) == ListProducts(store, category, "") * ListProducts(store, "", keyword)
  {
  }

  /** Without a category or keyword every product is listed; the category
      filter keeps exactly the products of that category; the keyword filter
      keeps exactly the products whose name contains it, ignoring case. */
  lemma ListProductsFilters(store: ProductStore, category: string, keyword: string, p: Product)
    ensures ListProducts(store, "", "") == store.Values
    ensures category != "" && keyword == "" ==>
      (p in ListProducts(store, category, keyword) <==> p in store.Values && CategoryName(p.category) == category)
    ensures category == "" && keyword != "" ==>
      (p in ListProducts(store, category, keyword) <==> p in store.Values && ContainsIgnoreCase(p.name, keyword))
    ensures (forall c: Category :: CategoryName(c) != category) && category != "" ==>
      ListProducts(store, category, keyword) == {}
  {
  }

  /** `GET /api/products/:id`. */
  function GetProduct(store: ProductStore, id: ProductId): (r: Response<Product>)
    ensures id in store <==> r.Ok?
    ensures r.Ok? ==> r.status == 200 && r.body == store[id]
    ensures r.Error? ==> r.status == 404 && r.message == NotFoundMessage
  {
    if id in store then Ok(200, store[id]) else Error(404, NotFoundMessage)
  }

  /** `x || product.x` for a price: a missing price and a price of 0 both keep
      the stored one. */
  function PriceOr(price: Option<int>, current: int): (r: int)
    ensures price.Some? && price.value != 0 ==> r == price.value
    ensures price.None? || price.value == 0 ==> r == current
  {
    if price.Some? && price.value != 0 then price.value else current
  }

  /** `PUT /api/products/:id`: each field is overwritten only by a truthy
      value; an empty list is truthy and overwrites. Reviews and their
      statistics are never touched. */
  function Merge(p: Product, input: ProductInput, cat: Category): (q: Product)
    ensures q.id == p.id && q.admin == p.admin && q.createdAt == p.createdAt
    ensures q.reviews == p.reviews && q.rating == p.rating && q.numReviews == p.numReviews
    ensures q.name == OrElse(input.name, p.name)
    ensures q.brand == OrElse(input.brand, p.brand)
    ensures q.description == OrElse(input.description, p.description)
    ensures q.category == cat
    ensures q.price == PriceOr(input.price, p.price)
    ensures q.images == input.images.GetOr(p.images)
    ensures q.sizes == if input.sizes.Some? then SizesWithDefaults(input.sizes.value) else p.sizes
    ensures q.colors == input.colors.GetOr(p.colors)
  {
    p.(name := OrElse(input.name, p.name),
       brand := OrElse(input.brand, p.brand),
       category := cat,
       description := OrElse(input.description, p.description),
       price := PriceOr(input.price, p.price),
       images := input.images.GetOr(p.images),
       sizes := if input.sizes.Some? then SizesWithDefaults(input.sizes.value) else p.sizes,
       colors := input.colors.GetOr(p.colors))
  }

  /** `category || product.category`, cast to the enum. */
  function MergedCategory(p: Product, input: ProductInput): (r: Option<Category>)
    ensures input.category == "" ==> r == Some(p.category)
    ensures input.category != "" ==> r == ParseCategory(input.category)
  {
    if input.category == "" then Some(p.category) else ParseCategory(input.category)
  }

  function UpdateProduct(store: ProductStore, id: ProductId, input: ProductInput): (r: Reply<ProductStore, Product>)
    ensures id !in store ==> r.store == store && r.response == Error(404, NotFoundMessage)
    ensures r.response.Ok? <==>
      && id in store && MergedCategory(store[id], input).Some?
      && SchemaValid(Merge(store[id], input, MergedCategory(store[id], input).value))
      && (input.sizes.Some? ==> CountsPresent(input.sizes.value))
    ensures r.response.Error? ==> r.store == store
    ensures r.response.Error? && id in store ==> r.response == Error(500, ValidationMessage)
    ensures r.response.Ok? ==>
      && id in store
      && r.response.status == 200
      && r.store == store[id := r.response.body]
      && r.response.body == Merge(store[id], input, MergedCategory(store[id], input).value)
      && var (old_, new_) := (store[id], r.response.body);
         && new_.id == old_.id && new_.admin == old_.admin && new_.createdAt == old_.createdAt
         && new_.reviews == old_.reviews && new_.rating == old_.rating && new_.numReviews == old_.numReviews
         && (input.name == "" ==> new_.name == old_.name)
         && (input.name != "" ==> new_.name == input.name)
         && (input.category == "" ==> new_.category == old_.category)
         && (input.category != "" ==> CategoryName(new_.category) == input.category)
         && (input.price.None? || input.price == Some(0) ==> new_.price == old_.price)
         && (input.images.None? ==> new_.images == old_.images)
         && (input.images.Some? ==> new_.images == input.images.value)
         && (input.brand != "" ==> new_.brand == input.brand)
         && (input.description != "" ==> new_.description == input.description)
         && (input.price.Some? && input.price.value != 0 ==> new_.price == input.price.value)
         && (input.sizes.Some? ==> new_.sizes == SizesWithDefaults(input.sizes.value))
         && (input.colors.Some? ==> new_.colors == input.colors.value)
  {
    if id !in store then Reply(store, Error(404, NotFoundMessage))
    else
      var p := store[id];
      var cat := MergedCategory(p, input);
      if cat.None? then Reply(store, Error(500, ValidationMessage))
      else
        var p' := Merge(p, input, cat.value);
        if SchemaValid(p') && (input.sizes.Some? ==> CountsPresent(input.sizes.value)) then Reply(store[id := p'], Ok(200, p'))
        else Reply(store, Error(500, ValidationMessage))
  }

  /** On a consistent store an update of an existing product succeeds exactly
      when its category is empty or one of the enum's names and the lists it
      carries are valid: the stored fields it keeps are already valid, and
      the string fields it overwrites are truthy. */
  lemma UpdateSucceedsIff(store: ProductStore, id: ProductId, input: ProductInput)
    requires StoreInvariant(store)
    ensures UpdateProduct(store, id, input).response.Ok? <==>
      id in store && (input.category == "" || ParseCategory(input.category).Some?) && ListsValid(input)
  {
    if id in store && MergedCategory(store[id], input).Some? {
      var p := store[id];
      ValidIffListsValid(Merge(p, input, MergedCategory(p, input).value), input);
    }
  }

  /** A request whose every field is falsy (but no list is present) leaves the
      product as it was. */
  lemma UpdateWithFalsyFieldsKeepsProduct(store: ProductStore, id: ProductId, price: Option<int>)
    requires StoreInvariant(store)
    requires id in store
    requires price.None? || price == Some(0)
    ensures UpdateProduct(store, id, ProductInput("", "", "", "", price, None, None, None))
            == Reply(store, Ok(200, store[id]))
  {
    var p := store[id];
    assert Merge(p, ProductInput("", "", "", "", price, None, None, None), p.category) == p;
    assert store[id := p] == store;
  }

  /** An empty list, unlike an empty string or 0, replaces the stored list. */
  lemma UpdateWithEmptyImagesClearsThem(store: ProductStore, id: ProductId)
    requires StoreInvariant(store)
    requires id in store
    ensures UpdateProduct(store, id, ProductInput("", "", "", "", None, Some([]), None, None)).response.Ok?
    ensures UpdateProduct(store, id, ProductInput("", "", "", "", None, Some([]), None, None)).store[id].images == []
  {
  }

  /** Repeating an update changes nothing more. */
  lemma UpdateIdempotent(store: ProductStore, id: ProductId, input: ProductInput)
    ensures var once := UpdateProduct(store, id, input);
            once.response.Ok? ==> UpdateProduct(once.store, id, input) == once
  {
    var once := UpdateProduct(store, id, input);
    if once.response.Ok? {
      var p := store[id];
      var p' := once.response.body;
      var cat := if input.category == "" then p.category else ParseCategory(input.category).value;
      assert p' == Merge(p, input, cat);
      var cat' := if input.category == "" then p'.category else ParseCategory(input.category).value;
      assert cat' == cat;
      assert Merge(p', input, cat') == p';
      assert once.store[id := p'] == once.store;
    }
  }

  /** Updates keep the store invariant: reviews and statistics are untouched
      and the merged product validated. */
  lemma UpdateKeepsInvariant(store: ProductStore, id: ProductId, input: ProductInput)
    requires StoreInvariant(store)
    ensures StoreInvariant(UpdateProduct(store, id, input).store)
  {
  }

  /** `DELETE /api/products/:id`: a hard delete. */
  function DeleteProduct(store: ProductStore, id: ProductId): (r: Reply<ProductStore, string>)
    ensures id in store ==> r.store == store - {id} && r.response == Ok(200, "Product removed")
    ensures id !in store ==> r.store == store && r.response == Error(404, NotFoundMessage)
    ensures id !in r.store
    ensures forall k :: k in store && k != id ==> k in r.store && r.store[k] == store[k]
  {
    if id in store then Reply(store - {id}, Ok(200, "Product removed"))
    else Reply(store, Error(404, NotFoundMessage))
  }

  /** After a delete the product can no longer be fetched, and the invariant holds. */
  lemma DeleteThenGet(store: ProductStore, id: ProductId)
    requires StoreInvariant(store)
    ensures GetProduct(DeleteProduct(store, id).store, id) == Error(404, NotFoundMessage)
    ensures StoreInvariant(DeleteProduct(store, id).store)
  {
  }

  /** A freshly created product can be fetched back unchanged. */
  lemma CreateThenGet(store: ProductStore, newId: ProductId, caller: AdminId, input: ProductInput, now: int)
    requires newId !in store
    requires StoreInvariant(store)
    ensures var r := CreateProduct(store, newId, caller, input, now);
            r.response.Ok? ==> GetProduct(r.store, newId) == Ok(200, r.response.body) && StoreInvariant(r.store)
  {
  }

  /** The reviewing user as the auth middleware resolves it. */
  datatype Reviewer = Reviewer(id: UserId, name: string)

  /** `POST /api/products/:id/reviews`: rejects a second review by the same
      user; otherwise appends the review and recomputes `numReviews` as the
      count and `rating` as the mean. */
  function AddReview(store: ProductStore, id: ProductId, reviewer: Reviewer, rating: real, comment: string)
    : (r: Reply<ProductStore, string>)
    ensures id !in store ==> r.store == store && r.response == Error(404, NotFoundMessage)
    ensures id in store && HasReviewBy(store[id], reviewer.id) ==>
      r.store == store && r.response == Error(400, "Product already reviewed")
    ensures r.response.Error? ==> r.store == store
    ensures r.response.Ok? <==>
      && id in store && !HasReviewBy(store[id], reviewer.id)
      && SchemaValid(store[id]) && ReviewValid(Review(reviewer.name, rating, comment, reviewer.id))
    ensures r.response.Ok? ==>
      && id in store && !HasReviewBy(store[id], reviewer.id)
      && r.response == Ok(201, "Review added")
      && id in r.store && r.store == store[id := r.store[id]]
      && var (p, p') := (store[id], r.store[id]);
         && p'.reviews == p.reviews + [Review(reviewer.name, rating, comment, reviewer.id)]
         && p'.numReviews == |p'.reviews|
         && p'.rating == MeanRating(p'.reviews)
         && p' == p.(reviews := p'.reviews, numReviews := p'.numReviews, rating := p'.rating)
  {
    if id !in store then Reply(store, Error(404, NotFoundMessage))
    else
      var p := store[id];
      if HasReviewBy(p, reviewer.id) then Reply(store, Error(400, "Product already reviewed"))
      else
        var reviews := p.reviews + [Review(reviewer.name, rating, comment, reviewer.id)];
        var p' := p.(reviews := reviews,
                     numReviews := |reviews|,
                     rating := FoldRatings(0.0, reviews) / (|reviews| as real));
        FoldIsTotal(0.0, reviews);
        assert forall i :: 0 <= i < |p.reviews| ==> reviews[i] == p.reviews[i];
        assert reviews[|p.reviews|] == Review(reviewer.name, rating, comment, reviewer.id);
        if SchemaValid(p') then Reply(store[id := p'], Ok(201, "Review added"))
        else Reply(store, Error(500, ValidationMessage))
  }

  /** Accepting a review keeps every product valid, consistent and with at most
      one review per user. */
  lemma AddReviewKeepsInvariant(store: ProductStore, id: ProductId, reviewer: Reviewer, rating: real, comment: string)
    requires StoreInvariant(store)
    ensures StoreInvariant(AddReview(store, id, reviewer, rating, comment).store)
  {
    var r := AddReview(store, id, reviewer, rating, comment);
    if r.response.Ok? {
      var p := store[id];
      var p' := r.store[id];
      assert OneReviewPerUser(p') by {
        forall i, j | 0 <= i < j < |p'.reviews|
          ensures p'.reviews[i].user != p'.reviews[j].user
        {
          if j == |p.reviews| {
            assert p'.reviews[i] == p.reviews[i];
          }
        }
      }
    }
  }

  /** The new mean is the old mean weighted by the old count, plus the new rating. */
  lemma AddReviewUpdatesMean(store: ProductStore, id: ProductId, reviewer: Reviewer, rating: real, comment: string)
    requires id in store && RatingsConsistent(store[id])
    ensures var r := AddReview(store, id, reviewer, rating, comment);
            r.response.Ok? ==>
              var n := store[id].numReviews;
              r.store[id].numReviews == n + 1 &&
              r.store[id].rating * ((n + 1) as real) == store[id].rating * (n as real) + rating
  {
    var r := AddReview(store, id, reviewer, rating, comment);
    if r.response.Ok? {
      var p := store[id];
      var rv := Review(reviewer.name, rating, comment, reviewer.id);
      RatingTotalAppend(p.reviews, rv);
      var n := |p.reviews|;
      if n > 0 {
        assert p.rating * (n as real) == RatingTotal(p.reviews);
      }
    }
  }

  /** One review of rating `a` gives rating `a`; a second, by another user, of
      rating `b` gives `(a + b) / 2`; the first user cannot review again. */
  lemma TwoReviewsAverage(store: ProductStore, id: ProductId, u1: Reviewer, u2: Reviewer, a: real, b: real)
    requires id in store && store[id].reviews == [] && SchemaValid(store[id])
    requires u1.id != u2.id && u1.id != "" && u2.id != "" && u1.name != "" && u2.name != ""
    ensures var r1 := AddReview(store, id, u1, a, "ok");
            && r1.response.Ok? && r1.store[id].rating == a && r1.store[id].numReviews == 1
            && var r2 := AddReview(r1.store, id, u2, b, "ok");
               && r2.response.Ok? && r2.store[id].rating == (a + b) / 2.0 && r2.store[id].numReviews == 2
               && AddReview(r2.store, id, u1, b, "again").response == Error(400, "Product already reviewed")
  {
    var r1 := AddReview(store, id, u1, a, "ok");
    var p1 := r1.store[id];
    assert p1.reviews[0].user == u1.id;
    assert RatingTotal(p1.reviews) == a;
    var r2 := AddReview(r1.store, id, u2, b, "ok");
    var p2 := r2.store[id];
    assert p2.reviews[0].user == u1.id;
    RatingTotalAppend(p1.reviews, Review(u2.name, b, "ok", u2.id));
  }
}
