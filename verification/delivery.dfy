/** Money and the delivery-fee schedules. All amounts are integer paise
    (1 rupee = 100 paise); prices are stored with two decimals. */
module Delivery {

  const PaisePerRupee: int := 100

  /** Checkout schedule: free from 1500, 30 from 1200, 60 below. */
  const FreeDeliveryFrom: int := 1500 * PaisePerRupee
  const ReducedFeeFrom: int := 1200 * PaisePerRupee
  const ReducedFee: int := 30 * PaisePerRupee
  const StandardFee: int := 60 * PaisePerRupee

  /** The flat fee the cart view shows for any positive subtotal. */
  const CartViewFee: int := 50 * PaisePerRupee

  /** Smallest grand total (subtotal plus tiered fee) checkout accepts. */
  const MinimumOrder: int := 1200 * PaisePerRupee

  /** `calculate_delivery`: the tiered fee charged at checkout. */
  function CalculateDelivery(subtotal: int): (fee: int)
    ensures fee == 0 || fee == ReducedFee || fee == StandardFee
    ensures fee == 0 <==> subtotal >= FreeDeliveryFrom
    ensures fee == ReducedFee <==> ReducedFeeFrom <= subtotal < FreeDeliveryFrom
    ensures fee == StandardFee <==> subtotal < ReducedFeeFrom
  {
    if subtotal >= FreeDeliveryFrom then 0
    else if subtotal >= ReducedFeeFrom then ReducedFee
    else StandardFee
  }

  /** The fee the cart page shows: flat for a non-empty total, not tiered. */
  function CartViewDelivery(subtotal: int): (fee: int)
    ensures fee == 0 || fee == CartViewFee
    ensures fee == CartViewFee <==> subtotal > 0
  {
    if subtotal > 0 then CartViewFee else 0
  }

  /** A larger subtotal never pays a larger fee. */
  lemma DeliveryMonotone(a: int, b: int)
    requires a <= b
    ensures CalculateDelivery(b) <= CalculateDelivery(a)
  {
  }

  /** The minimum-order rule on the grand total amounts to a minimum of
      1140 rupees on the subtotal: below 1200 the 60-rupee fee is added,
      and from 1200 on the grand total is already at least 1200. */
  lemma MinimumOrderOnSubtotal(subtotal: int)
    ensures subtotal + CalculateDelivery(subtotal) >= MinimumOrder
        <==> subtotal >= MinimumOrder - StandardFee
  {
  }

  /** Grand totals near the boundary. */
  lemma MinimumOrderBoundary()
    ensures 113999 + CalculateDelivery(113999) < MinimumOrder
    ensures 114000 + CalculateDelivery(114000) == MinimumOrder
    ensures 119999 + CalculateDelivery(119999) == 125999
    ensures 120000 + CalculateDelivery(120000) == 123000
  {
  }
}
