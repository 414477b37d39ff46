/** The admin user detail page: the user's orders picked out of the full
    order listing, the order count, and the phone and address lines. */
module UserDetail {
  import opened Common
  import Seqs
  import Orders
  import Accounts

  type Row = Orders.ListedOrder

  /** The filter callback: the order has a populated user whose id is the
      route's id. */
  predicate OwnedBy(id: Accounts.Id, row: Row) {
    row.user.Some? && row.user.value.id == id
  }

  function Owner(id: Accounts.Id): Row -> bool {
    row => OwnedBy(id, row)
  }

  /** `userOrders`: the listed orders of this user, in listing order. */
  function OrdersOfUser(rows: seq<Row>, id: Accounts.Id): (r: seq<Row>)
    ensures |r| <= |rows|
    ensures forall i :: 0 <= i < |r| ==> r[i].user.Some? && r[i].user.value.id == id
  {
    Seqs.Filter(rows, Owner(id))
  }

  /** `Orders: {orders.length}`. */
  function OrderCount(rows: seq<Row>, id: Accounts.Id): (n: nat)
    ensures n <= |rows|
    ensures n == 0 <==> forall i :: 0 <= i < |rows| ==> !OwnedBy(id, rows[i])
  {
    Seqs.FilterMembers(rows, Owner(id));
    var r := OrdersOfUser(rows, id);
    assert |r| > 0 ==> r[0] in r;
    assert forall i :: 0 <= i < |rows| && OwnedBy(id, rows[i]) ==> rows[i] in r;
    |r|
  }

  /** Against the order route: when the fetched rows are the admin listing,
      the page shows a stored order exactly when it belongs to this user and
      the user still exists to be populated. These are the orders the user
      sees in their own list. */
  lemma ShowsExactlyTheUsersOrders(store: Orders.OrderStore, names: map<Orders.UserId, string>,
                                   rows: seq<Row>, id: Accounts.Id, o: Orders.Order)
    requires forall l :: l in rows <==> l in Orders.ListOrders(store, names)
    requires o in store.Values
    ensures Orders.Populate(o, names) in OrdersOfUser(rows, id) <==> o.user == id && id in names
    ensures Orders.Populate(o, names) in OrdersOfUser(rows, id) ==> o in Orders.MyOrders(store, id)
  {
    Seqs.FilterMembers(rows, Owner(id));
  }

  /** Every order shown belongs to the user. */
  lemma ShownOrdersAreTheUsers(store: Orders.OrderStore, names: map<Orders.UserId, string>,
                               rows: seq<Row>, id: Accounts.Id, i: int)
    requires forall l :: l in rows ==> l in Orders.ListOrders(store, names)
    requires 0 <= i < |OrdersOfUser(rows, id)|
    ensures OrdersOfUser(rows, id)[i].order in Orders.MyOrders(store, id)
  {
    var l := OrdersOfUser(rows, id)[i];
    Seqs.FilterMembers(rows, Owner(id));
    assert l in rows;
  }

  /** `user.phone || 'Not provided'`. */
  function PhoneLine(u: Accounts.PublicUser): (r: string)
    ensures Truthy(u.phone) ==> r == u.phone
    ensures !Truthy(u.phone) ==> r == "Not provided"
  {
    OrElse(u.phone, "Not provided")
  }

  const NoAddress := "No address provided"

  /** An address with a street is shown as "street, city, country"; an
      address without a street, or none at all, as the placeholder. The state
      and postal code are not shown. */
  predicate HasStreet(u: Accounts.PublicUser) {
    u.address.Some? && Truthy(u.address.value.street)
  }

  function AddressLine(u: Accounts.PublicUser): (r: string)
    ensures HasStreet(u) ==> r == u.address.value.street + ", " + u.address.value.city + ", " + u.address.value.country
    ensures !HasStreet(u) ==> r == NoAddress
  {
    if HasStreet(u) then u.address.value.street + ", " + u.address.value.city + ", " + u.address.value.country
    else NoAddress
  }

  /** The placeholder appears exactly when there is no street: a shown
      address always holds a comma, which the placeholder does not. */
  lemma AddressPlaceholderIff(u: Accounts.PublicUser)
    ensures AddressLine(u) == NoAddress <==> !HasStreet(u)
  {
    if HasStreet(u) {
      var a := u.address.value;
      var r := AddressLine(u);
      assert r[|a.street|] == ',';
      assert forall k :: 0 <= k < |NoAddress| ==> NoAddress[k] != ',';
    }
  }
}
