/** The order store and the order route handlers: create, get, pay, status
    update, the caller's own orders and the admin listing. Orders are never
    deleted; line items are a snapshot taken at checkout. */
module Orders {
  import opened Common

  type OrderId = string
  type UserId = string

  /** One purchased line, copied from the cart when the order is placed. An
      absent image is "". Money is integer cents. */
  datatype OrderItem = OrderItem(
    name: string,
    qty: int,
    image: string,
    price: int,
    size: string,
    color: string,
    product: string)

  datatype ShippingAddress = ShippingAddress(address: string, city: string, postalCode: string, country: string)

  datatype PaymentResult = PaymentResult(id: string, status: string, updateTime: string, emailAddress: string)

  datatype Order = Order(
    id: OrderId,
    user: UserId,
    orderItems: seq<OrderItem>,
    shippingAddress: ShippingAddress,
    paymentMethod: string,
    totalPrice: int,
    status: string,
    isPaid: bool,
    paidAt: Option<int>,
    paymentResult: Option<PaymentResult>,
    isDelivered: bool,
    deliveredAt: Option<int>,
    createdAt: int)

  type OrderStore = map<OrderId, Order>

  /** Every order is filed under its own id and each flag has its timestamp. */
  ghost predicate StoreInvariant(store: OrderStore) {
    forall k :: k in store ==>
      && store[k].id == k
      && (store[k].isPaid ==> store[k].paidAt.Some?)
      && (store[k].isDelivered ==> store[k].deliveredAt.Some?)
  }

  const NotFoundMessage := "Order not found"

  /** The body of `POST /api/orders`. `orderItems` is None when the field is
      missing; an empty list is present. */
  datatype OrderInput = OrderInput(
    orderItems: Option<seq<OrderItem>>,
    shippingAddress: ShippingAddress,
    paymentMethod: string,
    totalPrice: int)

  /** The document `new Order({...})` builds: the request's fields, owned by
      the caller, unpaid and undelivered. The status an order starts in comes
      from the order schema and is a parameter here. */
  function NewOrder(newId: OrderId, caller: UserId, input: OrderInput, initialStatus: string, now: int): (o: Order)
    ensures o.id == newId && o.user == caller
    ensures o.orderItems == input.orderItems.GetOr([])
    ensures o.shippingAddress == input.shippingAddress
    ensures o.paymentMethod == input.paymentMethod
    ensures o.totalPrice == input.totalPrice
    ensures !o.isPaid && o.paidAt.None? && o.paymentResult.None?
    ensures !o.isDelivered && o.deliveredAt.None?
    ensures o.status == initialStatus && o.createdAt == now
  {
    Order(newId, caller, input.orderItems.GetOr([]), input.shippingAddress, input.paymentMethod,
          input.totalPrice, initialStatus, false, None, None, false, None, now)
  }

  const ValidationMessage := "Order validation failed"

  /** `POST /api/orders`: a present but empty item list is refused with 400;
      otherwise the built order is saved when the order schema, `accepts`
      here, validates it, and a refused save is a 500. */
  function CreateOrder(store: OrderStore, newId: OrderId, caller: UserId, input: OrderInput,
                       initialStatus: string, accepts: Order -> bool, now: int)
    : (r: Reply<OrderStore, Order>)
    requires newId !in store
    ensures r.response.Ok? <==>
      input.orderItems != Some([]) && accepts(NewOrder(newId, caller, input, initialStatus, now))
    ensures input.orderItems == Some([]) ==> r == Reply(store, Error(400, "No order items"))
    ensures r.response.Error? ==> r.store == store
    ensures r.response.Error? && input.orderItems != Some([]) ==> r.response == Error(500, ValidationMessage)
    ensures r.response.Ok? ==>
      && r.response.status == 201
      && r.store == store[newId := r.response.body]
      && r.response.body == NewOrder(newId, caller, input, initialStatus, now)
  {
    if input.orderItems == Some([]) then Reply(store, Error(400, "No order items"))
    else
      var o := NewOrder(newId, caller, input, initialStatus, now);
      if accepts(o) then Reply(store[newId := o], Ok(201, o))
      else Reply(store, Error(500, ValidationMessage))
  }

  /** A user's name and email, as `populate('user', 'name email')` reads them
      from the user collection. */
  datatype Contact = Contact(name: string, email: string)

  /** The owner of a fetched order: its id with name and email; a dangling
      reference populates to null (None). */
  datatype OwnerContact = OwnerContact(id: UserId, name: string, email: string)

  datatype OrderDetail = OrderDetail(order: Order, user: Option<OwnerContact>)

  /** `GET /api/orders/:id`, with the owner populated from `contacts`. There
      is no ownership check: the caller is not consulted. */
  function GetOrder(store: OrderStore, id: OrderId, caller: UserId, contacts: map<UserId, Contact>)
    : (r: Response<OrderDetail>)
    ensures id in store <==> r.Ok?
    ensures r.Ok? ==> r.status == 200 && r.body.order == store[id]
    ensures r.Ok? ==> (store[id].user in contacts <==> r.body.user.Some?)
    ensures r.Ok? && r.body.user.Some? ==>
      var c := contacts[store[id].user];
      r.body.user.value == OwnerContact(store[id].user, c.name, c.email)
    ensures r.Error? ==> r == Error(404, NotFoundMessage)
  {
    if id in store then
      var o := store[id];
      var owner := if o.user in contacts then Some(OwnerContact(o.user, contacts[o.user].name, contacts[o.user].email)) else None;
      Ok(200, OrderDetail(o, owner))
    else Error(404, NotFoundMessage)
  }

  /** Any authenticated user reads any order: the answer is the same for
      every caller. */
  lemma GetOrderIgnoresCaller(store: OrderStore, id: OrderId, a: UserId, b: UserId, contacts: map<UserId, Contact>)
    ensures GetOrder(store, id, a, contacts) == GetOrder(store, id, b, contacts)
  {
  }

  /** A created order is fetched back as saved, with its creator as owner. */
  lemma CreateThenGet(store: OrderStore, newId: OrderId, caller: UserId, input: OrderInput,
                      initialStatus: string, accepts: Order -> bool, now: int, contacts: map<UserId, Contact>)
    requires newId !in store && caller in contacts
    ensures var r := CreateOrder(store, newId, caller, input, initialStatus, accepts, now);
            r.response.Ok? ==>
              var g := GetOrder(r.store, newId, caller, contacts);
              && g.Ok? && g.body.order == r.response.body
              && g.body.user == Some(OwnerContact(caller, contacts[caller].name, contacts[caller].email))
  {
  }

  datatype Payer = Payer(emailAddress: string)

  /** The body of `PUT /api/orders/:id/pay`; `payer` is None when missing. */
  datatype PayInput = PayInput(id: string, status: string, updateTime: string, payer: Option<Payer>)

  /** `PUT /api/orders/:id/pay`: marks the order paid at `now` and records the
      payment. Reading `payer.email_address` of a missing payer throws before
      the save: 500 and nothing changes. */
  function PayOrder(store: OrderStore, id: OrderId, body: PayInput, now: int): (r: Reply<OrderStore, Order>)
    ensures id !in store ==> r == Reply(store, Error(404, NotFoundMessage))
    ensures id in store && body.payer.None? ==> r.store == store && r.response.Error? && r.response.status == 500
    ensures r.response.Ok? <==> id in store && body.payer.Some?
    ensures r.response.Ok? ==>
      && r.response.status == 200
      && r.store == store[id := r.response.body]
      && r.response.body == store[id].(
           isPaid := true,
           paidAt := Some(now),
           paymentResult := Some(PaymentResult(body.id, body.status, body.updateTime, body.payer.value.emailAddress)))
  {
    if id !in store then Reply(store, Error(404, NotFoundMessage))
    else if body.payer.None? then
      Reply(store, Error(500, "Cannot read properties of undefined (reading 'email_address')"))
    else
      var o := store[id].(isPaid := true,
                          paidAt := Some(now),
                          paymentResult := Some(PaymentResult(body.id, body.status, body.updateTime, body.payer.value.emailAddress)));
      Reply(store[id := o], Ok(200, o))
  }

  /** `PUT /api/orders/:id/status`: a truthy status replaces the old one, and
      only the exact string "Delivered" marks the order delivered. `accepts`
      is the order schema's validator for the status field; a value it refuses
      fails the save with 500. */
  function SetOrderStatus(store: OrderStore, id: OrderId, status: string, accepts: string -> bool, now: int)
    : (r: Reply<OrderStore, Order>)
    ensures id !in store ==> r == Reply(store, Error(404, NotFoundMessage))
    ensures r.response.Ok? <==> id in store && accepts(OrElse(status, store[id].status))
    ensures r.response.Error? ==> r.store == store
    ensures r.response.Error? && id in store ==> r.response == Error(500, ValidationMessage)
    ensures r.response.Ok? ==>
      && id in store
      && r.response.status == 200
      && r.store == store[id := r.response.body]
      && var (o, o') := (store[id], r.response.body);
         && o'.status == (if status != "" then status else o.status)
         && (status == "Delivered" ==> o'.isDelivered && o'.deliveredAt == Some(now))
         && (status != "Delivered" ==> o'.isDelivered == o.isDelivered && o'.deliveredAt == o.deliveredAt)
         && o' == o.(status := o'.status, isDelivered := o'.isDelivered, deliveredAt := o'.deliveredAt)
  {
    if id !in store then Reply(store, Error(404, NotFoundMessage))
    else
      var o := store[id];
      var o1 := o.(status := OrElse(status, o.status));
      var o2 := if status == "Delivered" then o1.(isDelivered := true, deliveredAt := Some(now)) else o1;
      if accepts(o2.status) then Reply(store[id := o2], Ok(200, o2))
      else Reply(store, Error(500, ValidationMessage))
  }

  /** The statuses the admin order page offers. */
  const AdminStatusOptions: seq<string> := ["pending", "processing", "shipped", "delivered", "cancelled"]

  /** No status the admin page can send marks an order delivered: its
      "delivered" is lower case, and the check is case-sensitive. */
  lemma AdminPageNeverMarksDelivered(store: OrderStore, id: OrderId, i: int, accepts: string -> bool, now: int)
    requires id in store && 0 <= i < |AdminStatusOptions|
    ensures var r := SetOrderStatus(store, id, AdminStatusOptions[i], accepts, now);
            id in r.store && r.store[id].isDelivered == store[id].isDelivered
  {
    assert AdminStatusOptions[i] != "Delivered";
  }

  /** Delivery is never undone: no later status, "Pending" included, clears it. */
  lemma DeliveredIsPermanent(store: OrderStore, id: OrderId, status: string, accepts: string -> bool, now: int)
    requires id in store && store[id].isDelivered
    ensures SetOrderStatus(store, id, status, accepts, now).store[id].isDelivered
  {
  }

  /** Creating, paying and updating a status keep every order filed under its
      id with a timestamp for each flag that is set. */
  lemma CreateKeepsInvariant(store: OrderStore, newId: OrderId, caller: UserId, input: OrderInput, initialStatus: string, accepts: Order -> bool, now: int)
    requires StoreInvariant(store) && newId !in store
    ensures StoreInvariant(CreateOrder(store, newId, caller, input, initialStatus, accepts, now).store)
  {
  }

  lemma PayKeepsInvariant(store: OrderStore, id: OrderId, body: PayInput, now: int)
    requires StoreInvariant(store)
    ensures StoreInvariant(PayOrder(store, id, body, now).store)
  {
  }

  lemma SetStatusKeepsInvariant(store: OrderStore, id: OrderId, status: string, accepts: string -> bool, now: int)
    requires StoreInvariant(store)
    ensures StoreInvariant(SetOrderStatus(store, id, status, accepts, now).store)
  {
  }

  /** `GET /api/orders/user/myorders`: the caller's orders. MongoDB returns
      them in no specified order, so the result is a set. */
  function MyOrders(store: OrderStore, caller: UserId): set<Order> {
    set o | o in store.Values && o.user == caller
  }

  /** My orders are exactly the stored orders I own: an order placed by me is
      listed for me, and never for anyone else. */
  lemma MyOrdersExactly(store: OrderStore, caller: UserId, o: Order)
    ensures o in MyOrders(store, caller) <==> o in store.Values && o.user == caller
    ensures forall other :: other != caller ==> MyOrders(store, caller) !! MyOrders(store, other)
  {
  }

  /** A created order shows up in its creator's list. */
  lemma CreatedOrderIsMine(store: OrderStore, newId: OrderId, caller: UserId, input: OrderInput, initialStatus: string,
                           accepts: Order -> bool, now: int)
    requires newId !in store
    ensures var r := CreateOrder(store, newId, caller, input, initialStatus, accepts, now);
            r.response.Ok? ==> r.response.body in MyOrders(r.store, caller) &&
                               MyOrders(r.store, caller) == MyOrders(store, caller) + {r.response.body}
  {
    var r := CreateOrder(store, newId, caller, input, initialStatus, accepts, now);
    if r.response.Ok? {
      var o := r.response.body;
      assert r.store[newId] == o;
      forall x | x in MyOrders(r.store, caller) ensures x in MyOrders(store, caller) + {o} {
        var k :| k in r.store && r.store[k] == x;
        if k != newId {
          assert x in store.Values;
        }
      }
      forall x | x in MyOrders(store, caller) ensures x in MyOrders(r.store, caller) {
        var k :| k in store && store[k] == x;
        assert r.store[k] == x;
      }
    }
  }

  /** The populated owner of a listed order: `populate('user', 'id name')`. A
      dangling reference populates to null. */
  datatype OwnerView = OwnerView(id: UserId, name: string)

  datatype ListedOrder = ListedOrder(order: Order, user: Option<OwnerView>)

  function Populate(o: Order, names: map<UserId, string>): (r: ListedOrder)
    ensures r.order == o
    ensures o.user in names <==> r.user.Some?
    ensures r.user.Some? ==> r.user.value == OwnerView(o.user, names[o.user])
  {
    ListedOrder(o, if o.user in names then Some(OwnerView(o.user, names[o.user])) else None)
  }

  /** `GET /api/orders` (admin): every order, each with its owner's name. */
  function ListOrders(store: OrderStore, names: map<UserId, string>): (r: set<ListedOrder>)
    ensures forall o :: o in store.Values ==> Populate(o, names) in r
    ensures forall l :: l in r ==> l.order in store.Values && l == Populate(l.order, names)
  {
    set o | o in store.Values :: Populate(o, names)
  }
}
