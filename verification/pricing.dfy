/** The order-summary arithmetic shared by the cart, checkout and payment
    pages. Amounts are integer cents; the source computes in IEEE doubles. */
module Pricing {

  /** The flat shipping charge, $10.00. */
  const ShippingFee: int := 1000

  /** `totalPrice > 0 ? 10 : 0`. */
  function Shipping(subtotal: int): int {
    if subtotal > 0 then ShippingFee else 0
  }

  /** `Math.round(totalPrice * 0.1 * 100) / 100` for a positive subtotal, else 0:
      ten percent rounded half-up to the cent. */
  function Tax(subtotal: int): int {
    if subtotal > 0 then (subtotal + 5) / 10 else 0
  }

  /** `totalPrice + shipping + tax`. */
  function Total(subtotal: int): int {
    subtotal + Shipping(subtotal) + Tax(subtotal)
  }

  /** Tax is ten percent of the subtotal to the nearest cent, halves rounded up. */
  lemma TaxIsRoundedTenPercent(subtotal: int)
    requires subtotal > 0
    ensures subtotal - 5 < 10 * Tax(subtotal) <= subtotal + 5
  {
  }

  /** Shipping is charged exactly on a positive subtotal; a zero subtotal (an
      empty cart) costs nothing at all. */
  lemma TotalsOfSubtotal(subtotal: int)
    ensures Shipping(subtotal) == ShippingFee <==> subtotal > 0
    ensures Shipping(subtotal) == 0 <==> subtotal <= 0
    ensures subtotal <= 0 ==> Tax(subtotal) == 0 && Total(subtotal) == subtotal
    ensures subtotal > 0 ==> Total(subtotal) >= subtotal + ShippingFee
    ensures subtotal >= 0 ==> (Total(subtotal) == 0 <==> subtotal == 0)
  {
  }
}
