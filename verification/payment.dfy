/** The payment page: the method choice, the card form, the order payload
    built from the cart and the stored shipping address, and what placing the
    order does to the cart. */
module Payment {
  import opened Common
  import Seqs
  import Pricing
  import Cart
  import Orders

  datatype PaymentMethod = Cash | Card

  /** The value sent as `paymentMethod`. */
  function MethodName(m: PaymentMethod): (r: string)
    ensures r == "cash" || r == "card"
  {
    match m
    case Cash => "cash"
    case Card => "card"
  }

  /** Distinct methods are sent as distinct strings. */
  lemma MethodNameInjective(a: PaymentMethod, b: PaymentMethod)
    ensures MethodName(a) == MethodName(b) <==> a == b
  {
  }

  datatype CardField = CardName | CardNumber | ExpiryDate | Cvv

  datatype CardDetails = CardDetails(cardName: string, cardNumber: string, expiryDate: string, cvv: string)

  function CardGet(c: CardDetails, f: CardField): string {
    match f
    case CardName => c.cardName
    case CardNumber => c.cardNumber
    case ExpiryDate => c.expiryDate
    case Cvv => c.cvv
  }

  /** `handleCardDetailsChange`: `{...cardDetails, [name]: value}`. */
  function SetCardField(c: CardDetails, f: CardField, value: string): (r: CardDetails)
    ensures CardGet(r, f) == value
    ensures forall g :: g != f ==> CardGet(r, g) == CardGet(c, g)
  {
    match f
    case CardName => c.(cardName := value)
    case CardNumber => c.(cardNumber := value)
    case ExpiryDate => c.(expiryDate := value)
    case Cvv => c.(cvv := value)
  }

  /** The page's state: the chosen method (cash at first), the card form
      (empty at first) and the address read from storage, None when nothing
      is stored. */
  datatype Page = Page(choice: PaymentMethod, card: CardDetails, stored: Option<Orders.ShippingAddress>)

  function InitialPage(stored: Option<Orders.ShippingAddress>): (p: Page)
    ensures p.choice == Cash && p.stored == stored
    ensures forall f :: CardGet(p.card, f) == ""
  {
    Page(Cash, CardDetails("", "", "", ""), stored)
  }

  /** The stored address, or `{}` when there is none. An empty object carries
      no field at all, which is "" in this model. */
  function ShippingAddressOf(p: Page): (a: Orders.ShippingAddress)
    ensures p.stored.Some? ==> a == p.stored.value
    ensures p.stored.None? ==> a.address == "" && a.city == "" && a.postalCode == "" && a.country == ""
  {
    p.stored.GetOr(Orders.ShippingAddress("", "", "", ""))
  }

  /** One cart line as an order line: the cart line's product id becomes
      `product`. */
  function ToOrderItem(l: Cart.CartLine): (o: Orders.OrderItem)
    ensures o.product == l.id && o.qty == l.qty && o.price == l.price
    ensures o.name == l.name && o.image == l.image && o.size == l.size && o.color == l.color
  {
    Orders.OrderItem(l.name, l.qty, l.image, l.price, l.size, l.color, l.id)
  }

  function OrderItems(cart: Cart.CartItems): (items: seq<Orders.OrderItem>)
    ensures |items| == |cart|
    ensures forall i :: 0 <= i < |cart| ==> items[i] == ToOrderItem(cart[i])
  {
    seq(|cart|, i requires 0 <= i < |cart| => ToOrderItem(cart[i]))
  }

  /** The body of the order request: every cart line in cart order, the
      address, the method and the total with shipping and tax. The card form
      is not read. */
  function BuildPayload(cart: Cart.CartItems, p: Page): (input: Orders.OrderInput)
    ensures input.orderItems == Some(OrderItems(cart))
    ensures input.shippingAddress == ShippingAddressOf(p)
    ensures input.paymentMethod == MethodName(p.choice)
    ensures input.totalPrice == Pricing.Total(Cart.TotalPrice(cart))
  {
    Orders.OrderInput(Some(OrderItems(cart)), ShippingAddressOf(p), MethodName(p.choice),
                      Pricing.Total(Cart.TotalPrice(cart)))
  }

  /** Whatever is typed into the card form, the payload is the same: card
      details never leave the page. */
  lemma CardDetailsNeverSent(cart: Cart.CartItems, p: Page, card: CardDetails)
    ensures BuildPayload(cart, p.(card := card)) == BuildPayload(cart, p)
  {
  }

  function ItemAmount(o: Orders.OrderItem): int {
    o.qty * o.price
  }

  /** The order lines are worth exactly the cart's subtotal, so the total sent
      is that subtotal plus its shipping and tax. */
  lemma {:induction false} ItemsKeepSubtotal(cart: Cart.CartItems)
    ensures Seqs.Sum(OrderItems(cart), ItemAmount) == Cart.TotalPrice(cart)
    decreases |cart|
  {
    if |cart| > 0 {
      ItemsKeepSubtotal(cart[1..]);
      assert OrderItems(cart)[1..] == OrderItems(cart[1..]);
    }
  }

  /** What the page does once the request settles: on success the cart is
      cleared and the browser goes to the thank-you page with the new order's
      id; on any failure the cart is kept and an alert is shown. */
  datatype Outcome = Outcome(cart: Cart.CartItems, thankYou: Option<Orders.OrderId>, alert: bool)

  function AfterPlaceOrder(cart: Cart.CartItems, response: Response<Orders.Order>): (r: Outcome)
    ensures response.Ok? <==> r.thankYou.Some?
    ensures response.Ok? ==> r.cart == [] && r.thankYou == Some(response.body.id) && !r.alert
    ensures response.Error? ==> r.cart == cart && r.alert
  {
    match response
    case Ok(_, order) => Outcome(Cart.ClearCart(cart), Some(order.id), false)
    case Error(_, _) => Outcome(cart, None, true)
  }

  /** Placing an order against the order route: a non-empty cart whose order
      the order schema (`accepts`) validates becomes a stored order owned by
      the caller with the cart's lines, method and total, and the cart is
      cleared. An empty cart is refused with 400; an order the schema refuses
      (for instance the empty address sent when none is stored, if the schema
      requires one) fails with 500. On either failure the store is left alone,
      the cart is kept and an alert is shown. */
  lemma PlaceOrderRoundTrip(store: Orders.OrderStore, newId: Orders.OrderId, caller: Orders.UserId,
                            cart: Cart.CartItems, p: Page, initialStatus: string,
                            accepts: Orders.Order -> bool, now: int)
    requires newId !in store
    ensures var input := BuildPayload(cart, p);
            var r := Orders.CreateOrder(store, newId, caller, input, initialStatus, accepts, now);
            var out := AfterPlaceOrder(cart, r.response);
            && (r.response.Ok? <==> |cart| > 0 && accepts(Orders.NewOrder(newId, caller, input, initialStatus, now)))
            && (r.response.Ok? ==>
                  && newId in r.store
                  && r.store[newId].user == caller
                  && r.store[newId].orderItems == OrderItems(cart)
                  && Seqs.Sum(r.store[newId].orderItems, ItemAmount) == Cart.TotalPrice(cart)
                  && r.store[newId].totalPrice == Pricing.Total(Cart.TotalPrice(cart))
                  && r.store[newId].paymentMethod == MethodName(p.choice)
                  && r.store[newId].shippingAddress == ShippingAddressOf(p)
                  && out.cart == [] && out.thankYou == Some(newId))
            && (|cart| == 0 ==> r.store == store && r.response == Error(400, "No order items"))
            && (r.response.Error? ==> r.store == store && out.cart == cart && out.alert)
  {
    ItemsKeepSubtotal(cart);
    if |cart| > 0 {
      assert OrderItems(cart) != [];
    }
  }
}
