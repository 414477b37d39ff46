# FootFlex storefront core in Dafny

This is a Dafny model of the FootFlex shoe storefront's core logic, with proofs about it.

**Server side.** Three stores and their route handlers:

- the catalog, with products, sizes, colours, reviews and ratings;
- orders, covering creation, payment, status changes and listings;
- accounts, covering user and admin registration, login, profile and lookup.

Each store is an immutable `map`. Each handler is a pure function that returns the store it leaves behind together with an HTTP-style response: `Ok(status, body)` or `Error(status, message)`.

**Client side.** The page logic that sits on top of the stores:

- the cart context and cart page;
- checkout validation;
- the payment request;
- the product page's stock, quantity and rating stars;
- the product list's sort;
- the admin pages: orders, products, users, user detail, product edit and dashboard;
- the two route guards.

Each page is a set of pure functions over the data fetched from the server. Integration lemmas tie the pages back to the stores. For example:

- the orders page's local status update agrees with what the server stored;
- a product deleted on the manage page is gone from the store;
- an edited product that the server accepts is stored as the form held it, except a price that reads as 0 or NaN, which keeps the stored price; a size whose count was NaN makes the server refuse the edit;
- placing an order that the order schema accepts stores it and empties the cart.

**Conventions:**

- Money is integer cents. The flat shipping charge is 1000, and tax is ten percent rounded to the nearest cent.
- Ratings are `real`.
- Dates are integers.
- JavaScript truthiness is written out. The empty string stands for a missing string. A missing list is `None`, and an empty list is truthy. A price of 0 is falsy.
- Server listings are `set`s, because the database gives no order. The lists a page has fetched are `seq`s.
- Sorting is a stable insertion sort with an explicit comparator, because `Array.prototype.sort` is stable.

Modules:

- `Common`, `Text`, `Seqs`, `Sorting`, `Numbers`, `Pagination`, `Pricing`: shared helpers.
- `Catalog`, `Uploads`, `Orders`, `Accounts`: the server.
- `Cart`, `ProductDetail`, `ProductList`, `Checkout`, `Payment`: the shopper's pages.
- `OrdersList`, `ProductManage`, `UsersList`, `UserDetail`, `ProductEdit`, `Dashboard`: the admin pages.
- `RouteGuards`: the two route guards.

## Model

| member | source | states |
|---|---|---|
| Catalog.ParseCategory | server/models/productModel.js:40-44 | a category string is accepted exactly when it names one of Men, Women, Kids |
| Catalog.CategoryRoundTrip | server/models/productModel.js:40-44 | parsing a category's name gives the category back; only the three names parse |
| Catalog.SizesWithDefaults | server/models/productModel.js:65-70 | every size keeps its tag and a numeric count, and an absent count becomes the schema default 0 |
| Catalog.FoldIsTotal | server/routes/productRoutes.js:237-239 | the handler's left fold over the reviews computes the plain sum of their ratings |
| Catalog.MeanRatingBounds | server/routes/productRoutes.js:237-239 | the mean rating lies between any bounds around 0 that hold for every single rating (an empty list has mean 0) |
| Catalog.CreateProduct | server/routes/productRoutes.js:62-96 | answers 201 exactly when the category is one of the enum names, the caller, name, brand and description are non-empty, and no image, size tag, colour field or size count is empty or null; the stored product then has the request's name, brand, description, category, images, sizes (absent counts as 0), colours and price (0 when missing), the caller as owner, no reviews and zero rating; any failure gives 500 and stores nothing |
| Catalog.ValidIffListsValid | server/models/productModel.js:19-76 | a product holding the lists a request sent passes the schema exactly when its owner, name, brand, description, kept lists and reviews are non-empty where required and the sent lists have no empty entry or null count |
| Catalog.CreateThenGet | server/routes/productRoutes.js:62-96 | a product that was just created can be fetched back unchanged |
| Catalog.ListProductsFilters | server/routes/productRoutes.js:101-124 | with no filter every product is listed; a category keeps exactly that category; a keyword keeps names containing it, ignoring case; an unknown category lists nothing |
| Catalog.ListProducts | server/routes/productRoutes.js:101-124 | only stored products are listed |
| Catalog.ListProductsIntersect | server/routes/productRoutes.js:103-118 | a query with both a category and a keyword lists exactly the products that both single-filter queries list |
| Catalog.GetProduct | server/routes/productRoutes.js:129-141 | returns the stored product exactly when the id exists, and 404 otherwise |
| Catalog.PriceOr | server/routes/productRoutes.js:166 | a price of 0 or a missing price keeps the stored price; any other price replaces it |
| Catalog.Merge | server/routes/productRoutes.js:162-169 | name, brand and description are the request's when truthy and the stored ones otherwise; price likewise, with 0 falsy; a sent list replaces the stored one (sizes with absent counts as 0); the category is the one chosen; id, owner, creation time, reviews, rating and numReviews are kept |
| Catalog.MergedCategory | server/routes/productRoutes.js:164 | an empty category keeps the stored one; any other is cast to the enum |
| Catalog.UpdateProduct | server/routes/productRoutes.js:146-183 | a missing id gives 404 and leaves the store unchanged; otherwise it answers 200 exactly when the merged category is an enum name, the merged product passes the schema and no sent size has a null count, and then stores that merged product (so a truthy name, brand, description, category, price or any sent list overwrites, and no other product changes); every other case gives 500 with the store unchanged |
| Catalog.UpdateSucceedsIff | server/routes/productRoutes.js:159-171 | on a consistent store, an update of a stored product succeeds exactly when its category is empty or an enum name and the lists it sends have no empty entry or null count |
| Catalog.UpdateWithFalsyFieldsKeepsProduct | server/routes/productRoutes.js:162-169 | a request whose fields are all "", 0 or missing leaves the product as it was |
| Catalog.UpdateWithEmptyImagesClearsThem | server/routes/productRoutes.js:167 | an empty image list is truthy and so replaces the stored images |
| Catalog.UpdateIdempotent | server/routes/productRoutes.js:159-176 | applying the same update twice gives the same store as applying it once |
| Catalog.UpdateKeepsInvariant | server/routes/productRoutes.js:159-171 | updates keep every product valid, filed under its own id, with consistent review statistics |
| Catalog.DeleteProduct | server/routes/productRoutes.js:188-205 | an existing product is removed and no other product changes; a missing id gives 404 |
| Catalog.DeleteThenGet | server/routes/productRoutes.js:188-205 | after a delete, fetching the product gives 404, and the store invariant still holds |
| Catalog.AddReview | server/routes/productRoutes.js:210-251 | a missing product gives 404 and a second review by the same user gives 400, both changing nothing; otherwise the review is accepted with 201 exactly when the product and the new review pass the schema (name, comment and user non-empty), and then it is appended and numReviews and rating are recomputed from all reviews; a refused review gives 500 |
| Catalog.AddReviewKeepsInvariant | server/routes/productRoutes.js:217-239 | accepting reviews keeps at most one review per user and keeps rating and numReviews consistent |
| Catalog.AddReviewUpdatesMean | server/routes/productRoutes.js:233-239 | the new rating is the old rating weighted by the old count, plus the new rating, divided by the new count |
| Catalog.TwoReviewsAverage | server/routes/productRoutes.js:226-239 | one review of a gives rating a; a second review of b by another user gives (a + b) / 2 |
| Uploads.AcceptsUploadIff | server/routes/productRoutes.js:28-38 | a file is accepted exactly when jpg, jpeg or png occurs somewhere in the lower-cased extension and somewhere in the mimetype as sent |
| Uploads.AcceptsUpperCaseExtension | server/routes/productRoutes.js:30 | `.JPG` with `image/jpeg` is accepted, because the extension is lower-cased |
| Uploads.AcceptsUnanchoredExtension | server/routes/productRoutes.js:29-30 | `.pngx` is accepted, because the pattern is unanchored |
| Uploads.RejectsUpperCaseMimetype | server/routes/productRoutes.js:31 | `IMAGE/PNG` is refused, because the mimetype is not lower-cased |
| Uploads.RejectsMimetypeWithoutPatternLetters | server/routes/productRoutes.js:28-38 | whatever the extension, a mimetype with no lower-case j or p, such as image/gif, is refused |
| Uploads.UploadPath | server/routes/productRoutes.js:52 | the public path is a slash followed by the stored path, with the same length plus one |
| Uploads.UploadPathShape | server/routes/productRoutes.js:52 | only the first backslash becomes a slash; every other character is copied |
| Uploads.UploadPathKeepsLaterBackslashes | server/routes/productRoutes.js:52 | a path with two backslashes keeps the second one |
| Uploads.UploadPaths | server/routes/productRoutes.js:52 | one public path per uploaded file, in order |
| Uploads.UploadRequest | server/routes/productRoutes.js:40-56 | the request succeeds exactly when it carries at most five files and the filter accepts every one; it then answers one public path per file, in order |
| Uploads.OneRefusedFileFailsAll | server/routes/productRoutes.js:28-50 | one refused file, wherever it sits, fails the whole request |
| Orders.CreateOrder | server/routes/orderRoutes.js:10-41 | a present but empty item list gives 400 and stores nothing; otherwise it answers 201 exactly when the order schema (a parameter) accepts the built order, and then stores it under the new id; a refused order gives 500 and stores nothing |
| Orders.NewOrder | server/routes/orderRoutes.js:24-32 | the order the route builds: the new id, the caller as owner, the request's items (none when absent), address, payment method and total, unpaid and undelivered, with the initial status and the creation time |
| Orders.CreatedOrderIsMine | server/routes/orderRoutes.js:24-30 | a created order appears in its creator's own order list |
| Orders.GetOrder | server/routes/orderRoutes.js:46-61 | returns the stored order exactly when the id exists, with its owner populated with name and email exactly when the owner is a known user; otherwise 404 |
| Orders.GetOrderIgnoresCaller | server/routes/orderRoutes.js:46-52 | any two callers get the same answer, because there is no ownership check |
| Orders.CreateThenGet | server/routes/orderRoutes.js:24-51 | an order that was just created is fetched back as saved, with the creator's name and email |
| Orders.PayOrder | server/routes/orderRoutes.js:66-92 | marks the order paid at `now` and copies the payment result; a missing payer gives 500 and an unchanged order; a missing id gives 404 |
| Orders.SetOrderStatus | server/routes/orderRoutes.js:97-121 | a missing id gives 404; an existing order answers 200 exactly when the status schema (a parameter) accepts the truthy new status or else the old one, and then that status is stored and only exactly "Delivered" sets isDelivered and deliveredAt; otherwise 500 with nothing changed |
| Orders.AdminPageNeverMarksDelivered | server/routes/orderRoutes.js:104-107 | none of the lower-case statuses the admin page sends sets isDelivered |
| Orders.DeliveredIsPermanent | server/routes/orderRoutes.js:102-107 | no later status clears isDelivered |
| Orders.CreateKeepsInvariant | server/routes/orderRoutes.js:24-32 | creating keeps every order filed under its id, with a timestamp for each set flag |
| Orders.PayKeepsInvariant | server/routes/orderRoutes.js:70-80 | paying keeps the order store invariant |
| Orders.SetStatusKeepsInvariant | server/routes/orderRoutes.js:101-109 | a status update keeps the order store invariant |
| Orders.MyOrdersExactly | server/routes/orderRoutes.js:126-129 | my orders are exactly the stored orders I own, and two users' lists never overlap |
| Orders.Populate | server/routes/orderRoutes.js:140 | a listed order carries its owner's id and name exactly when the owner is known |
| Orders.ListOrders | server/routes/orderRoutes.js:138-145 | every stored order is listed with its populated owner, and every listed entry is a stored order with its populated owner, so nothing else is listed |
| Accounts.LoginUser | server/routes/userRoutes.js:12-33 | succeeds exactly when the email is registered and the password matches, returning the public fields and a token; otherwise 401 with one generic message |
| Accounts.RegisterUser | server/routes/userRoutes.js:38-71 | an existing email gives 400 and creates nothing; otherwise the user is stored with a hashed password, and the reply carries id, name, email and token |
| Accounts.RegisterKeepsInvariant | server/routes/userRoutes.js:42-53 | registering with a fresh id keeps emails and ids unique |
| Accounts.RegisterThenLogin | server/routes/userRoutes.js:49-64 | a user who just registered can log in with the same email and password |
| Accounts.GetProfile | server/routes/userRoutes.js:76-94 | returns the caller's record without the password, or 404 when there is no such user |
| Accounts.MergeProfile | server/routes/userRoutes.js:104-111 | each field is replaced only by a truthy value; the password changes, rehashed, only when a non-empty one is sent |
| Accounts.UpdateProfile | server/routes/userRoutes.js:99-132 | a missing user gives 404; otherwise the update succeeds exactly when the merged email is the caller's own or no other user's, storing the merged record under its email and replying with its public fields and a fresh token; a clash with another user's email gives 500 (the unique index) and changes nothing |
| Accounts.UpdateProfileKeepsInvariant | server/routes/userRoutes.js:103-113 | a profile update keeps emails and ids unique |
| Accounts.UpdateProfileTouchesOnlyCaller | server/routes/userRoutes.js:101-113 | every other user's record is left as it was |
| Accounts.PasswordChangeThenLogin | server/routes/userRoutes.js:109-111 | after a password change the new password logs in and the old one no longer does |
| Accounts.EmptyUpdateKeepsRecord | server/routes/userRoutes.js:104-111 | an update that sends nothing truthy leaves the store unchanged |
| Accounts.LoginAdmin | server/routes/adminRoutes.js:12-32 | succeeds exactly when the email is registered and the password matches, replying with the admin's id, name, email, isAdmin and a token for the id; otherwise 401 with one generic message |
| Accounts.RegisterAdmin | server/routes/adminRoutes.js:37-72 | an existing email gives 400 and creates nothing; a missing name, email or password creates nothing; a created admin always has isAdmin set, and the response reports it |
| Accounts.RegisterAdminThenLogin | server/routes/adminRoutes.js:48-64 | a new admin can log in, and the login says isAdmin |
| Accounts.GetAdminProfile | server/routes/adminRoutes.js:77-94 | returns the caller's id, name, email and isAdmin exactly when an admin has that id, or 404 |
| Accounts.RegisterAdminThenProfile | server/routes/adminRoutes.js:48-94 | a newly registered admin's profile shows the registered name and email, and isAdmin |
| Accounts.ListUsers | server/routes/adminRoutes.js:99-106 | lists every stored user without the password, and nothing else |
| Accounts.GetUser | server/routes/adminRoutes.js:111-123 | returns the user with that id without the password, or 404 |
| Accounts.ViewsShowStoredFields | server/routes/adminRoutes.js:113 | the admin's user lookup and the user's own profile read show the same fields |
| Cart.AddToCart | client/src/context/CartContext.js:37-66 | the key (id, size, colour) is present afterwards; an existing key keeps the length; a new key appends one line after the old cart; no other key appears |
| Cart.AddExistingKey | client/src/context/CartContext.js:42-50 | an existing line's quantity rises by qty, 1 by default, and every other line stays as it was |
| Cart.AddNewKey | client/src/context/CartContext.js:51-64 | a new line carries the product's name, first image and price with the chosen size, colour and quantity |
| Cart.AddKeepsUniqueKeys | client/src/context/CartContext.js:37-66 | adding never creates two lines with the same key |
| Cart.RemoveFromCart | client/src/context/CartContext.js:69-75 | drops exactly the lines with that key |
| Cart.RemoveExactlyOne | client/src/context/CartContext.js:69-75 | with unique keys, removing a line's key removes just that line, and both totals fall by its share |
| Cart.RemoveAbsentKey | client/src/context/CartContext.js:69-75 | removing a key that no line has changes nothing |
| Cart.UpdateCartQuantity | client/src/context/CartContext.js:78-86 | sets the quantity of the lines with that key and leaves every other line as it was |
| Cart.UpdateQuantityTotals | client/src/context/CartContext.js:20-30 | setting one line's quantity shifts totalItems and totalPrice by exactly that line's change |
| Cart.ClearCart | client/src/context/CartContext.js:89-92 | the cart is empty and both totals are 0 |
| Cart.QuantityButtons | client/src/pages/user/Cart.js:315-322 | minus never goes below 1; plus adds one with no stock bound; no other line changes |
| Cart.RemoveClickDropsLine | client/src/pages/user/Cart.js:328 | the remove button drops exactly the clicked line |
| Pricing.TaxIsRoundedTenPercent | client/src/pages/user/Cart.js:266 | tax is ten percent of a positive subtotal to the nearest cent |
| Pricing.TotalsOfSubtotal | client/src/pages/user/Cart.js:265-267 | shipping is charged exactly when the subtotal is positive; an empty cart totals 0 |
| ProductDetail.FindSize | client/src/pages/user/ProductDetail.js:379 | finds the first size with that tag, or none when no size has it |
| ProductDetail.StockForSelected | client/src/pages/user/ProductDetail.js:384-388 | 0 with no product, no selection or an unknown size; otherwise that size's count |
| ProductDetail.StockAgreesWithInStock | client/src/pages/user/ProductDetail.js:377-388 | the selected size has positive stock exactly when the in-stock check says so |
| ProductDetail.InStockLabel | client/src/pages/user/ProductDetail.js:473-474 | a size in stock makes the product show "In Stock"; when size labels are distinct, a product in stock has a selectable size in stock |
| ProductDetail.QuantityStaysInRange | client/src/pages/user/ProductDetail.js:516-524 | minus keeps the quantity at least 1; an enabled plus never exceeds the stock |
| ProductDetail.HandleAddToCart | client/src/pages/user/ProductDetail.js:391-400 | without both a size and a colour the cart is unchanged; otherwise the line is in the cart |
| ProductDetail.AddWithoutSelectionIsNoOp | client/src/pages/user/ProductDetail.js:392-395 | adding straight after the page opens changes nothing |
| ProductDetail.RenderStars | client/src/pages/user/ProductDetail.js:403-422 | full stars are the rating's floor; a half star appears when the fraction is at least one half; the counts sum to five |
| ProductDetail.FiveStars | client/src/pages/user/ProductDetail.js:403-422 | a rating in [0, 5] draws five icons; a rating of 5.5 or more draws more than five |
| ProductDetail.ConsistentProductDrawsFiveStars | client/src/pages/user/ProductDetail.js:466 | a product whose reviews are all in [0, 5] and whose rating is their mean draws five icons |
| ProductList.ParseSortKey | client/src/pages/user/ProductList.js:155-167 | the three named keys select their comparators; every other value falls back to newest first |
| ProductList.ComparatorIsTotalPreorder | client/src/pages/user/ProductList.js:155-167 | every sort comparator is total and transitive |
| ProductList.SortedProducts | client/src/pages/user/ProductList.js:155 | the sorted copy is a permutation of the fetched products |
| ProductList.SortedProductsOrder | client/src/pages/user/ProductList.js:155-167 | the sorted copy is ordered by the chosen key |
| Sorting.SortStable | client/src/pages/user/ProductList.js:154-166 | the elements the comparator calls equal to any given one leave the sort in the order they entered it |
| Sorting.InsertTies | client/src/pages/user/ProductList.js:154-166 | inserting an element puts it ahead of every element tied with it |
| ProductList.ResultCountMatchesGrid | client/src/pages/user/ProductList.js:179 | the "products found" count equals the number of cards, and the grid shows exactly the fetched products |
| ProductList.ViewOf | client/src/pages/user/ProductList.js:202-219 | loading, then the server's or the client's error text, then the empty state, then the sorted grid |
| Checkout.RequiredErrors | client/src/pages/user/Checkout.js:261-270 | a field has a required error exactly when it is blank after trimming |
| Checkout.EmailOkIffPattern | client/src/pages/user/Checkout.js:273 | the e-mail test in words agrees, in both directions, with the regular expression read as a pattern |
| Checkout.EmailExamples | client/src/pages/user/Checkout.js:273 | `a@b.co` is accepted; `a@b.`, `@b.co` and `a@@b.co` are refused |
| Checkout.PhoneIgnoresSeparators | client/src/pages/user/Checkout.js:279-280 | non-digit characters never change the phone verdict |
| Checkout.ValidateOtherFields | client/src/pages/user/Checkout.js:257-286 | every field other than e-mail and phone has an error exactly when it is blank |
| Checkout.ValidateEmail | client/src/pages/user/Checkout.js:266-276 | the e-mail has an error exactly when it is blank or fails the pattern; a non-empty e-mail that fails gets the format message, an empty one the required message |
| Checkout.ValidatePhone | client/src/pages/user/Checkout.js:266-282 | the phone has an error exactly when it is blank or has fewer than ten digits; a non-empty phone gets the format message |
| Checkout.IsValidIff | client/src/pages/user/Checkout.js:257-286 | the form is valid exactly when no field is blank, the e-mail matches and the phone has at least ten digits |
| Checkout.Submit | client/src/pages/user/Checkout.js:288-308 | a shipping address is stored exactly when the form is valid, and it holds the form's address, city, postal code and country |
| Checkout.SubmitKeepsOnlyAddressFields | client/src/pages/user/Checkout.js:293-298 | two valid forms that agree on address, city, postal code and country store the same address, whose four fields are the form's own; names, phone, e-mail and state are dropped |
| Checkout.Token | client/src/pages/user/Checkout.js:224-225 | the k-th space-separated token of the name, or "" when there is none |
| Checkout.Prefill | client/src/pages/user/Checkout.js:223-233 | without an account every field is empty; with one, the first and last names are the first two space-separated tokens of its name, e-mail and phone are its own, and street, city, state, postal code and country come from its address, or are empty when it has none |
| Checkout.PrefillNames | client/src/pages/user/Checkout.js:224-225 | "First Last" fills both names; a name without a space fills only the first name |
| Checkout.PrefillThenSubmit | client/src/pages/user/Checkout.js:223-308 | for an account with an address, submitting the prefilled form stores that address when the form is valid |
| Checkout.PrefillWithoutAddressBlocks | client/src/pages/user/Checkout.js:223-308 | an account without an address can never submit the prefill unchanged, because its address field is blank |
| Payment.MethodNameInjective | client/src/pages/user/Payment.js:251 | the two methods are sent as two different strings |
| Payment.SetCardField | client/src/pages/user/Payment.js:262-268 | a card input sets its own field and no other |
| Payment.InitialPage | client/src/pages/user/Payment.js:251-260 | the page opens on cash, with empty card fields |
| Payment.ShippingAddressOf | client/src/pages/user/Payment.js:255-260 | the stored shipping address, or empty fields when none is stored |
| Payment.OrderItems | client/src/pages/user/Payment.js:284-292 | one order item per cart line, with the product id, name, image, price, size, colour and quantity copied |
| Payment.BuildPayload | client/src/pages/user/Payment.js:283-296 | the request carries the items, the address, the method name and the cart total with shipping and tax |
| Payment.CardDetailsNeverSent | client/src/pages/user/Payment.js:283-296 | the card fields have no effect on the request |
| Payment.ItemsKeepSubtotal | client/src/pages/user/Payment.js:284-292 | the items' amounts sum to the cart's totalPrice |
| Payment.AfterPlaceOrder | client/src/pages/user/Payment.js:279-318 | success clears the cart and moves to the thank-you page with the new order id; failure keeps the cart and alerts |
| Payment.PlaceOrderRoundTrip | client/src/pages/user/Payment.js:279-318 | the order is placed exactly when the cart is non-empty and the order schema (a parameter) accepts the order built from the payload; a placed order is stored under the new id, owned by the caller, with these items, their subtotal, the total with shipping and tax, the chosen method's name and the stored shipping address, and the cart is emptied on the way to the thank-you page; an empty cart gives 400, and any failure keeps the store and the cart and shows an alert |
| OrdersList.UserNameLower | client/src/pages/admin/OrdersList.js:465 | the lower-cased owner name, or "" when there is no owner or no name |
| OrdersList.FilteredExactly | client/src/pages/admin/OrdersList.js:455-468 | an order is kept exactly when its status passes the filter and the query occurs in its id or owner name, ignoring case |
| OrdersList.InitialFilterKeepsAll | client/src/pages/admin/OrdersList.js:397-399 | the initial controls ('all', '') keep every order in fetch order |
| OrdersList.StatusFilterIsExact | client/src/pages/admin/OrdersList.js:458-460 | a status filter other than 'all' keeps only orders whose status equals it exactly |
| OrdersList.ParseSortKey | client/src/pages/admin/OrdersList.js:469-480 | each of the four named keys selects its own comparator, and no other value does |
| OrdersList.ComparatorIsTotalPreorder | client/src/pages/admin/OrdersList.js:469-480 | every sort comparator is total and transitive |
| OrdersList.Listed | client/src/pages/admin/OrdersList.js:455-480 | the listed orders are a permutation of the filtered orders |
| OrdersList.ListedOrder | client/src/pages/admin/OrdersList.js:469-480 | the list is ordered by the chosen key, and an unknown key keeps the fetch order |
| OrdersList.CurrentRows | client/src/pages/admin/OrdersList.js:483-485 | the page shows at most ten rows of the list |
| OrdersList.SearchShowsFirstPage | client/src/pages/admin/OrdersList.js:438-452 | a new search or status filter returns to page 1; a new sort keeps the page and the same set of orders |
| OrdersList.ViewOf | client/src/pages/admin/OrdersList.js:620-627 | loading, then the error, then "No orders found", then the table page |
| OrdersList.ApplyStatus | client/src/pages/admin/OrdersList.js:530-534 | only the orders with that id change, and only their status |
| OrdersList.ApplyStatusAgreesWithStore | client/src/pages/admin/OrdersList.js:523-534 | after a successful update, the row's new status is the status the server stored |
| OrdersList.SaveModalStatus | client/src/pages/admin/OrdersList.js:508-527 | a request is sent exactly when an order is selected and the status changed |
| OrdersList.OpenThenSaveSendsNothing | client/src/pages/admin/OrdersList.js:488-513 | saving the modal straight after opening it sends nothing |
| OrdersList.InlineStatusRequest | client/src/pages/admin/OrdersList.js:655-659 | the inline select sends the row's id with one of the five lower-case statuses |
| Pagination.TotalPagesIsCeiling | client/src/pages/admin/OrdersList.js:483 | the page count is the least count whose pages of ten hold every row |
| Pagination.PageShape | client/src/pages/admin/OrdersList.js:484-485 | each page holds at most ten rows, and a page in range holds the rows from (p - 1) * 10 |
| Pagination.PagesPartition | client/src/pages/admin/OrdersList.js:483-485 | pages 1 to totalPages laid end to end give the whole list |
| Pagination.RowPage | client/src/pages/admin/OrdersList.js:484-485 | row i is shown on page i / 10 + 1, at position i % 10 |
| Pagination.LastItemFormulaAgrees | client/src/pages/admin/ProductManage.js:482-485 | the other pages' index formulas pick the same rows |
| Pagination.PageButtonsClamp | client/src/pages/admin/OrdersList.js:684-701 | from a page in range, both buttons stay in [1, totalPages] |
| Pagination.ControlsShownIff | client/src/pages/admin/ProductManage.js:609 | the page buttons appear exactly when there are more than ten rows |
| ProductManage.FilteredExactly | client/src/pages/admin/ProductManage.js:457-464 | a product is kept exactly when its name or brand contains the search, ignoring case, and the category filter is '' or its category; ('', '') keeps all |
| ProductManage.ParseSortKey | client/src/pages/admin/ProductManage.js:465-479 | each of the four named keys selects its own comparator; every other value, 'newest' included, is left to the newest-first order |
| ProductManage.ComparatorIsTotalPreorder | client/src/pages/admin/ProductManage.js:465-479 | every sort comparator is total and transitive |
| ProductManage.Listed | client/src/pages/admin/ProductManage.js:457-479 | the listed products are a permutation of the filtered products |
| ProductManage.ListedOrder | client/src/pages/admin/ProductManage.js:465-479 | the list is ordered by the chosen key |
| ProductManage.CurrentItems | client/src/pages/admin/ProductManage.js:482-485 | the page shows page p of the list, at most ten products |
| ProductManage.StalePageShowsNoRows | client/src/pages/admin/ProductManage.js:517-524 | the search does not reset the page, so a page past the new end shows no rows |
| ProductManage.PageButtons | client/src/pages/admin/ProductManage.js:609-635 | an enabled previous or next button stays in range, but next stays enabled past the end |
| ProductManage.StockLabel | client/src/pages/admin/ProductManage.js:584-588 | "In Stock" exactly when some size has a positive count, else "Out of Stock" |
| ProductManage.HandleDelete | client/src/pages/admin/ProductManage.js:420-444 | nothing happens without a pending id or on failure; success removes only the products with that id and closes the modal |
| ProductManage.DeleteAgreesWithStore | client/src/pages/admin/ProductManage.js:433-435 | after the server deletes a product, no product with that id is left on the page; when the server has no such product, the page is unchanged |
| UsersList.FilteredExactly | client/src/pages/admin/UsersList.js:215-218 | a user is kept exactly when the search occurs in the name or e-mail, ignoring case; an empty search keeps everyone |
| UsersList.ListsStoredUsers | client/src/pages/admin/UsersList.js:215-218 | a stored user is shown exactly when the search matches the name or e-mail |
| UsersList.CurrentUsers | client/src/pages/admin/UsersList.js:221-224 | rows page * 10 - 10 up to page * 10: page p of the filtered list, at most ten |
| UsersList.PagesShowEveryMatch | client/src/pages/admin/UsersList.js:221-224 | every matching user is shown once, on page i / 10 + 1 |
| UsersList.ButtonsShownIff | client/src/pages/admin/UsersList.js:291 | the page buttons appear exactly when more than ten users match |
| UserDetail.OrdersOfUser | client/src/pages/admin/UserDetail.js:237-241 | every shown order has a populated user with the route's id |
| UserDetail.OrderCount | client/src/pages/admin/UserDetail.js:363 | the count is 0 exactly when no fetched order belongs to the user |
| UserDetail.ShowsExactlyTheUsersOrders | client/src/pages/admin/UserDetail.js:237-241 | a stored order is shown exactly when it belongs to the user and the user can be populated; these are the user's own orders |
| UserDetail.ShownOrdersAreTheUsers | client/src/pages/admin/UserDetail.js:237-241 | every shown order is one of the user's orders in the store |
| UserDetail.PhoneLine | client/src/pages/admin/UserDetail.js:338 | the phone, or "Not provided" when it is empty |
| UserDetail.AddressLine | client/src/pages/admin/UserDetail.js:346-348 | "street, city, country" when a street is present, else "No address provided" |
| UserDetail.AddressPlaceholderIff | client/src/pages/admin/UserDetail.js:346-348 | the placeholder is shown exactly when there is no street |
| Numbers.ParseIntReadsTrimmed | client/src/pages/admin/ProductEdit.js:365 | parseInt skips leading white space and then reads an optional sign and the digits |
| Numbers.ParseIntShow | client/src/pages/admin/ProductEdit.js:365 | parseInt reads a number's decimal digits back to the number, and stops at the first non-digit |
| Numbers.ParseIntShowNegative | client/src/pages/admin/ProductEdit.js:365 | a minus sign in front negates the number |
| Numbers.ParseIntNaN | client/src/pages/admin/ProductEdit.js:365 | text without a digit is NaN |
| ProductEdit.Load | client/src/pages/admin/ProductEdit.js:292-308 | the form shows the product's fields, price, sizes, colours and images |
| ProductEdit.CountOf | client/src/pages/admin/ProductEdit.js:365 | a count parseInt read is sent as that number, and a NaN count is sent as null |
| ProductEdit.AddSize | client/src/pages/admin/ProductEdit.js:359-371 | with both inputs non-blank after trimming, the size is appended with its parsed count (null when NaN) and both inputs are cleared; otherwise nothing changes |
| ProductEdit.AddSizeReadsCount | client/src/pages/admin/ProductEdit.js:365 | a count typed as digits is stored as that number |
| ProductEdit.AddSizeNaNCount | client/src/pages/admin/ProductEdit.js:359-371 | a count with no digit, such as ".5" typed into the number input, is appended as a null count |
| ProductEdit.AddColor | client/src/pages/admin/ProductEdit.js:377-389 | with both inputs non-blank, the colour is appended, the name is reset to '' and the hex to '#000000'; otherwise nothing changes |
| ProductEdit.RemoveSize | client/src/pages/admin/ProductEdit.js:373-375 | an index in range removes exactly that size; any other index changes nothing; colours and images stay as they were |
| ProductEdit.RemoveColor | client/src/pages/admin/ProductEdit.js:391-393 | an index in range removes exactly that colour; any other index changes nothing; sizes and images stay as they were |
| ProductEdit.RemoveImage | client/src/pages/admin/ProductEdit.js:425-427 | an index in range removes exactly that image; any other index changes nothing; sizes and colours stay as they were |
| ProductEdit.AddThenRemoveColor | client/src/pages/admin/ProductEdit.js:377-393 | adding a colour and removing it again restores the list |
| ProductEdit.Uploaded | client/src/pages/admin/ProductEdit.js:415 | uploaded paths are appended after the existing images |
| ProductEdit.UploadThenImages | client/src/pages/admin/ProductEdit.js:395-422 | an upload of at most five accepted files appends one public path per file after the current images; any other upload leaves the page as it was |
| ProductEdit.Payload | client/src/pages/admin/ProductEdit.js:432-455 | a request is sent exactly when every field is truthy and each list is non-empty; it carries the form fields, the parsed price and the three lists as edited |
| ProductEdit.SubmittedEditIsStored | client/src/pages/admin/ProductEdit.js:449-455 | a size with a null (NaN) count makes the server refuse the edit and keep the store; on a consistent store an edit of a stored product is accepted exactly when its category is an enum name and no image, size tag, colour field or count is empty or null; an accepted edit stores the form's name, brand, description, category, images, colours and sizes, and its price unless that reads as 0 or NaN |
| ProductEdit.LoadThenSubmitKeepsProduct | client/src/pages/admin/ProductEdit.js:292-308 | loading a product and saving it straight away leaves the store unchanged |
| Dashboard.RevenueIsPaidTotal | client/src/pages/admin/AdminDashboard.js:285-287 | revenue is the sum, order by order, of each paid order's total; unpaid orders add nothing |
| Dashboard.PayingRaisesRevenue | client/src/pages/admin/AdminDashboard.js:285-287 | marking one unpaid order paid raises the revenue by exactly its total |
| Dashboard.StatsOf | client/src/pages/admin/AdminDashboard.js:256-307 | the counts equal the lengths of the fetched lists and revenue is the paid total; a failed fetch leaves every counter at 0 |
| Dashboard.RecentOrders | client/src/pages/admin/AdminDashboard.js:298-301 | min(5, n) orders are shown |
| Dashboard.RecentOf | client/src/pages/admin/AdminDashboard.js:262-307 | at most five fetched orders; none when a fetch failed |
| Dashboard.RecentAreNewest | client/src/pages/admin/AdminDashboard.js:298-301 | the recent orders are fetched orders, newest first, and no order left out is newer than any order shown |
| RouteGuards.PrivateRoute | client/src/components/routes/PrivateRoute.js:8 | no session, or a session with isAdmin true, redirects to /login/user; isAdmin false or absent renders the page |
| RouteGuards.AdminRoute | client/src/components/routes/AdminRoute.js:8 | only a session with isAdmin true renders the page; everything else redirects to /login/admin |
| RouteGuards.ExactlyOneGuardAdmits | client/src/components/routes/AdminRoute.js:8 | every session is admitted by exactly one of the two guards; with no session neither admits |
| RouteGuards.DecisionIgnoresToken | client/src/components/routes/PrivateRoute.js:8 | the decision depends only on the isAdmin flag, not on the token or the other fields |

## Left out

- **Database, HTTP and file I/O.** Mongoose queries, the Express wiring, the JSON file mirror (`fileStorage.js`), multer disk storage and timestamped file names (a file's stored path is an input), axios, localStorage and navigation are all left out. Stores are maps, and handlers are atomic. Fetch results are parameters, and a failed request is `None` or a `FetchError`.
- **Concurrency.** Every handler runs sequentially and atomically, so read-modify-write races are out of scope.
- **Library calls.** The following are parameters:
  - bcrypt hashing and comparison, and JWT signing (the `Crypto` record);
  - the order schema's validation of a whole new order and of a new status, and its default status, because the order model is not part of this model;
  - the server clock (`now`);
  - `parseFloat` on the edited price.
- **Floating-point money.** Amounts are integer cents. `Math.round(x * 0.1 * 100) / 100` becomes (x + 5) / 10, so IEEE rounding of binary fractions is not modelled. `toFixed` display is left out.
- **Regular expressions and locale.** The product keyword is a MongoDB regex, modelled as a literal case-insensitive substring, so metacharacters behave differently. Case folding covers ASCII letters only. `localeCompare` is code-point lexicographic order. `new Date(...)` is an integer timestamp.
- **`path.extname`.** The file-type check receives the extension already extracted.
- **parseInt on other radixes.** `parseInt` is modelled for decimal input only, so a `0x` prefix is not read as hex.
- **NaN values.** A NaN stock count is sent as null and refused by the schema, as modelled. NaN ratings are not modelled.
- **Malformed ids.** Every `findById` route answers 500 (a cast error) for an id that is not a well-formed object id. The model has no id syntax, so it answers 404 for any id that is not stored.
- **Models not part of this model.** The user model's validators and password pre-save hook, the order model and the auth and error middleware are not part of this model. The authenticated identity is an input. Of the user model only its unique index on email is modelled, as the 500 a clashing profile update gets. The model assumes registration validates no field beyond the duplicate-email check.
- Uploads.UploadRequest: a failed upload is `None`; its status and message come from the error middleware, which is not part of this model.
- Catalog.CreateProduct: a price sent as null (NaN on the client) is treated as a missing one, which defaults to 0, whereas the schema's `required` validator would refuse it with 500.
- Orders.GetOrder: the owner is populated from a map of user ids to name and email, and an owner missing from the map is reported as none.
- **The admin model's pre-save hook.** The hook calls `next()` without returning; this asynchronous library behaviour is not modelled.
- **Presentation.** Rendering, styling, animations, toasts, scroll locking, and the modal's open and close animation are left out. So are date formatting and the loading flags, beyond the view choice each page makes.
- **Session and auth forms.** The AuthContext provider and the login and register pages are left out.
- ProductManage: the page's loading, error and empty-state choice is not modelled separately. It has the same shape as `OrdersList.ViewOf` and `ProductList.ViewOf`.
- Catalog.MeanRatingBounds: ratings are unbounded in the source, so the five-icon property holds only for reviews rated in [0, 5].
- Cart.QuantityButtons: the click handlers take a line index that exists, because a button only appears on a rendered line.
