/** The client cart: a sequence of lines keyed by (product id, size, colour),
    the operations the cart context offers, the derived totals, and the
    quantity buttons of the cart page. */
module Cart {
  import opened Common
  import Seqs
  import Catalog

  /** One cart line. Money is integer cents; a product without images gives
      the line an empty image. */
  datatype CartLine = CartLine(id: string, name: string, image: string, price: int, size: string, color: string, qty: int)

  datatype Key = Key(id: string, size: string, color: string)

  function KeyOf(l: CartLine): Key {
    Key(l.id, l.size, l.color)
  }

  type CartItems = seq<CartLine>

  /** No two lines share a key. */
  predicate UniqueKeys(cart: CartItems) {
    forall i, j :: 0 <= i < j < |cart| ==> KeyOf(cart[i]) != KeyOf(cart[j])
  }

  predicate HasKey(cart: CartItems, k: Key) {
    exists i :: 0 <= i < |cart| && KeyOf(cart[i]) == k
  }

  function LineQty(l: CartLine): int {
    l.qty
  }

  function LineAmount(l: CartLine): int {
    l.qty * l.price
  }

  /** `totalItems`: the sum of the quantities. The cart page's item count is
      the same reduction. */
  function TotalItems(cart: CartItems): int {
    Seqs.Sum(cart, LineQty)
  }

  /** `totalPrice`: the sum of quantity times price. */
  function TotalPrice(cart: CartItems): int {
    Seqs.Sum(cart, LineAmount)
  }

  /** `product.images[0]`, "" when there is none. */
  function FirstImage(images: seq<string>): (r: string)
    ensures |images| > 0 ==> r == images[0]
  {
    if |images| > 0 then images[0] else ""
  }

  /** The quantity argument's default. */
  const DefaultQty := 1

  /** Adds `qty` to every line with key `k`. */
  function Bump(cart: CartItems, k: Key, qty: int): (r: CartItems)
    ensures |r| == |cart|
    ensures forall i :: 0 <= i < |cart| ==> KeyOf(r[i]) == KeyOf(cart[i])
  {
    seq(|cart|, i requires 0 <= i < |cart| =>
      if KeyOf(cart[i]) == k then cart[i].(qty := cart[i].qty + qty) else cart[i])
  }

  /** `addToCart(product, size, color, qty = 1)`: merges into the line with the
      same key, or appends a new line built from the product. */
  function AddToCart(cart: CartItems, p: Catalog.Product, size: string, color: string, qty: Option<int>): (r: CartItems)
    ensures HasKey(r, Key(p.id, size, color))
    ensures HasKey(cart, Key(p.id, size, color)) ==> |r| == |cart|
    ensures !HasKey(cart, Key(p.id, size, color)) ==> |r| == |cart| + 1 && r[..|cart|] == cart
    ensures forall k :: HasKey(r, k) <==> HasKey(cart, k) || k == Key(p.id, size, color)
  {
    var k := Key(p.id, size, color);
    var q := qty.GetOr(DefaultQty);
    if HasKey(cart, k) then
      var r := Bump(cart, k, q);
      assert forall k' :: HasKey(r, k') <==> HasKey(cart, k');
      r
    else
      var r := cart + [CartLine(p.id, p.name, FirstImage(p.images), p.price, size, color, q)];
      assert KeyOf(r[|cart|]) == k;
      assert forall i :: 0 <= i < |cart| ==> r[i] == cart[i];
      r
  }

  /** Adding an existing key raises that line's quantity by `qty` (1 when
      none is given); the length and every other line stay as they were, and
      the totals grow by exactly the added amount. */
  lemma AddExistingKey(cart: CartItems, p: Catalog.Product, size: string, color: string, qty: Option<int>, i: int)
    requires UniqueKeys(cart)
    requires 0 <= i < |cart| && KeyOf(cart[i]) == Key(p.id, size, color)
    ensures var q := qty.GetOr(1);
      var r := AddToCart(cart, p, size, color, qty);
      && |r| == |cart|
      && r[i] == cart[i].(qty := cart[i].qty + q)
      && (forall j :: 0 <= j < |cart| && j != i ==> r[j] == cart[j])
      && TotalItems(r) == TotalItems(cart) + q
      && TotalPrice(r) == TotalPrice(cart) + q * cart[i].price
  {
    var q := qty.GetOr(1);
    var r := AddToCart(cart, p, size, color, qty);
    assert r == cart[i := cart[i].(qty := cart[i].qty + q)];
    Seqs.SumUpdate(cart, i, cart[i].(qty := cart[i].qty + q), LineQty);
    Seqs.SumUpdate(cart, i, cart[i].(qty := cart[i].qty + q), LineAmount);
  }

  /** Adding a new key appends one line with the product's name, first image
      and price and the given quantity (1 when none is given); the totals grow
      by that line. */
  lemma AddNewKey(cart: CartItems, p: Catalog.Product, size: string, color: string, qty: Option<int>)
    requires !HasKey(cart, Key(p.id, size, color))
    ensures var q := qty.GetOr(1);
      var line := CartLine(p.id, p.name, FirstImage(p.images), p.price, size, color, q);
      && AddToCart(cart, p, size, color, qty) == cart + [line]
      && TotalItems(AddToCart(cart, p, size, color, qty)) == TotalItems(cart) + q
      && TotalPrice(AddToCart(cart, p, size, color, qty)) == TotalPrice(cart) + q * p.price
  {
    var line := CartLine(p.id, p.name, FirstImage(p.images), p.price, size, color, qty.GetOr(1));
    Seqs.SumAppend(cart, [line], LineQty);
    Seqs.SumAppend(cart, [line], LineAmount);
  }

  /** Adding never creates a second line with the same key. */
  lemma AddKeepsUniqueKeys(cart: CartItems, p: Catalog.Product, size: string, color: string, qty: Option<int>)
    requires UniqueKeys(cart)
    ensures UniqueKeys(AddToCart(cart, p, size, color, qty))
  {
    var r := AddToCart(cart, p, size, color, qty);
    if !HasKey(cart, Key(p.id, size, color)) {
      forall i, j | 0 <= i < j < |r| ensures KeyOf(r[i]) != KeyOf(r[j]) {
        if j == |cart| {
          assert r[i] == cart[i];
        } else {
          assert r[i] == cart[i] && r[j] == cart[j];
        }
      }
    }
  }

  function NotKey(k: Key): CartLine -> bool {
    l => KeyOf(l) != k
  }

  /** `removeFromCart(id, size, color)`: drops the lines with that key. */
  function RemoveFromCart(cart: CartItems, k: Key): (r: CartItems)
    ensures !HasKey(r, k)
    ensures forall l :: l in r <==> l in cart && KeyOf(l) != k
    ensures |r| <= |cart|
  {
    Seqs.FilterMembers(cart, NotKey(k));
    Seqs.Filter(cart, NotKey(k))
  }

  /** With unique keys, removing line `i`'s key removes exactly that line; the
      others keep their order, and the totals drop by that line. */
  lemma RemoveExactlyOne(cart: CartItems, i: int)
    requires UniqueKeys(cart)
    requires 0 <= i < |cart|
    ensures RemoveFromCart(cart, KeyOf(cart[i])) == cart[..i] + cart[i + 1..]
    ensures TotalItems(RemoveFromCart(cart, KeyOf(cart[i]))) == TotalItems(cart) - cart[i].qty
    ensures TotalPrice(RemoveFromCart(cart, KeyOf(cart[i]))) == TotalPrice(cart) - cart[i].qty * cart[i].price
  {
    FilterDropsOne(cart, i);
    Seqs.SumRemove(cart, i, LineQty);
    Seqs.SumRemove(cart, i, LineAmount);
  }

  lemma FilterDropsOne(cart: CartItems, i: int)
    requires UniqueKeys(cart)
    requires 0 <= i < |cart|
    ensures Seqs.Filter(cart, NotKey(KeyOf(cart[i]))) == cart[..i] + cart[i + 1..]
  {
    var keep := NotKey(KeyOf(cart[i]));
    forall j | 0 <= j < |cart| && j != i ensures keep(cart[j]) {
      if j < i {
        assert KeyOf(cart[j]) != KeyOf(cart[i]);
      } else {
        assert KeyOf(cart[i]) != KeyOf(cart[j]);
      }
    }
    Seqs.FilterDropsOnly(cart, keep, i);
  }

  /** Removing a key that no line has changes nothing. */
  lemma RemoveAbsentKey(cart: CartItems, k: Key)
    requires !HasKey(cart, k)
    ensures RemoveFromCart(cart, k) == cart
  {
    Seqs.FilterAll(cart, NotKey(k));
  }

  /** `updateCartQuantity(id, size, color, qty)`: sets the quantity of the
      lines with that key, with no lower bound. */
  function UpdateCartQuantity(cart: CartItems, k: Key, qty: int): (r: CartItems)
    ensures |r| == |cart|
    ensures forall i :: 0 <= i < |cart| && KeyOf(cart[i]) != k ==> r[i] == cart[i]
    ensures forall i :: 0 <= i < |cart| && KeyOf(cart[i]) == k ==> r[i] == cart[i].(qty := qty)
  {
    seq(|cart|, i requires 0 <= i < |cart| =>
      if KeyOf(cart[i]) == k then cart[i].(qty := qty) else cart[i])
  }

  /** Setting line `i`'s quantity shifts the totals by the change on that line
      only, and keeps the keys unique. */
  lemma UpdateQuantityTotals(cart: CartItems, i: int, qty: int)
    requires UniqueKeys(cart)
    requires 0 <= i < |cart|
    ensures var r := UpdateCartQuantity(cart, KeyOf(cart[i]), qty);
      && r == cart[i := cart[i].(qty := qty)]
      && UniqueKeys(r)
      && TotalItems(r) == TotalItems(cart) - cart[i].qty + qty
      && TotalPrice(r) == TotalPrice(cart) - cart[i].qty * cart[i].price + qty * cart[i].price
  {
    var r := UpdateCartQuantity(cart, KeyOf(cart[i]), qty);
    assert r == cart[i := cart[i].(qty := qty)];
    Seqs.SumUpdate(cart, i, cart[i].(qty := qty), LineQty);
    Seqs.SumUpdate(cart, i, cart[i].(qty := qty), LineAmount);
  }

  /** `clearCart()`. */
  function ClearCart(cart: CartItems): (r: CartItems)
    ensures r == []
    ensures TotalItems(r) == 0 && TotalPrice(r) == 0
  {
    []
  }

  /** The cart page's minus button: `max(1, qty - 1)` on the line's key. */
  function MinusClick(cart: CartItems, i: int): (r: CartItems)
    requires 0 <= i < |cart|
  {
    UpdateCartQuantity(cart, KeyOf(cart[i]), if cart[i].qty - 1 > 1 then cart[i].qty - 1 else 1)
  }

  /** The plus button: `qty + 1`, with no stock bound. */
  function PlusClick(cart: CartItems, i: int): (r: CartItems)
    requires 0 <= i < |cart|
  {
    UpdateCartQuantity(cart, KeyOf(cart[i]), cart[i].qty + 1)
  }

  /** The remove button drops the line by its key. */
  function RemoveClick(cart: CartItems, i: int): (r: CartItems)
    requires 0 <= i < |cart|
  {
    RemoveFromCart(cart, KeyOf(cart[i]))
  }

  /** Minus never takes a line below 1 and lowers a line above 1 by one; plus
      always raises it by one; neither touches any other line. */
  lemma QuantityButtons(cart: CartItems, i: int)
    requires UniqueKeys(cart)
    requires 0 <= i < |cart|
    ensures MinusClick(cart, i)[i].qty >= 1
    ensures cart[i].qty > 1 ==> MinusClick(cart, i)[i].qty == cart[i].qty - 1
    ensures cart[i].qty <= 1 ==> MinusClick(cart, i)[i].qty == 1
    ensures PlusClick(cart, i)[i].qty == cart[i].qty + 1
    ensures forall j :: 0 <= j < |cart| && j != i ==> MinusClick(cart, i)[j] == cart[j] && PlusClick(cart, i)[j] == cart[j]
    ensures TotalItems(PlusClick(cart, i)) == TotalItems(cart) + 1
  {
    UpdateQuantityTotals(cart, i, cart[i].qty + 1);
  }

  /** Removing from the page drops exactly the clicked line. */
  lemma RemoveClickDropsLine(cart: CartItems, i: int)
    requires UniqueKeys(cart)
    requires 0 <= i < |cart|
    ensures RemoveClick(cart, i) == cart[..i] + cart[i + 1..]
  {
    RemoveExactlyOne(cart, i);
  }
}
