/**
 * The money helpers: the cart total, the 5% GST and the order total, in whole
 * rupees. The source computes with binary floating point; the model computes
 * exactly, rounding the tax half up as `Math.round` does.
 */
module OrderTotals {
  import opened Types

  /**
   * `calculateCartTotal`: the running sum, left to right, of price times
   * quantity. Every line contributes its full amount, so no line costs more
   * than the cart, and the cart is free exactly when every line is (an empty
   * cart totals 0).
   */
  function CartTotal(items: seq<PricedLine>): (total: nat)
    ensures forall i :: 0 <= i < |items| ==> LineAmount(items[i]) <= total
    ensures total == 0 <==> forall i :: 0 <= i < |items| ==> LineAmount(items[i]) == 0
  {
    if items == [] then 0
    else
      var init, last := items[..|items| - 1], items[|items| - 1];
      assert forall i :: 0 <= i < |init| ==> items[i] == init[i];
      CartTotal(init) + last.price * last.quantity
  }

  /** The amount of one line. */
  function LineAmount(item: PricedLine): nat
  {
    item.price * item.quantity
  }

  /** The total of a cart split in two is the sum of the totals of the parts. */
  lemma {:induction false} CartTotalAppend(a: seq<PricedLine>, b: seq<PricedLine>)
    ensures CartTotal(a + b) == CartTotal(a) + CartTotal(b)
  {
    if b != [] {
      var init := b[..|b| - 1];
      assert (a + b)[..|a + b| - 1] == a + init;
      CartTotalAppend(a, init);
    } else {
      assert a + b == a;
    }
  }

  /**
   * `calculateTax`: 5% of the subtotal rounded to the nearest rupee, halves
   * up: the tax is the whole number nearest to subtotal / 20.
   */
  function CalculateTax(subtotal: nat): (taxes: nat)
    ensures 20 * taxes - 10 <= subtotal < 20 * taxes + 10
  {
    (subtotal + 10) / 20
  }

  /** A larger subtotal never carries a smaller tax, and the tax never exceeds the subtotal. */
  lemma TaxMonotone(a: nat, b: nat)
    requires a <= b
    ensures CalculateTax(a) <= CalculateTax(b)
    ensures CalculateTax(a) <= a
  {
  }

  datatype OrderTotal = OrderTotal(subtotal: nat, deliveryFee: nat, taxes: nat, discount: nat, total: nat)

  /**
   * `calculateOrderTotal`: echoes its inputs, adds the tax on the subtotal,
   * and charges subtotal + delivery fee + tax - discount, or nothing when the
   * discount covers all of it.
   */
  function CalculateOrderTotal(subtotal: nat, deliveryFee: nat, discount: nat): (o: OrderTotal)
    ensures o.subtotal == subtotal && o.deliveryFee == deliveryFee && o.discount == discount
    ensures o.taxes == CalculateTax(subtotal)
    ensures o.total + discount >= subtotal + deliveryFee + o.taxes
    ensures o.total > 0 ==> o.total + discount == subtotal + deliveryFee + o.taxes
  {
    var taxes := CalculateTax(subtotal);
    var total := subtotal + deliveryFee + taxes - discount;
    OrderTotal(subtotal, deliveryFee, taxes, discount, if total < 0 then 0 else total)
  }

  /**
   * The total is what remains of subtotal, fee and tax after the discount,
   * and 0 exactly when the discount covers them; a larger discount never
   * raises it, and without a discount the customer pays all three.
   */
  lemma OrderTotalSpec(subtotal: nat, deliveryFee: nat, d1: nat, d2: nat)
    requires d1 <= d2
    ensures var gross := subtotal + deliveryFee + CalculateTax(subtotal);
      && (CalculateOrderTotal(subtotal, deliveryFee, d1).total == 0 <==> d1 >= gross)
      && (d1 < gross ==> CalculateOrderTotal(subtotal, deliveryFee, d1).total == gross - d1)
      && CalculateOrderTotal(subtotal, deliveryFee, d2).total <= CalculateOrderTotal(subtotal, deliveryFee, d1).total
      && CalculateOrderTotal(subtotal, deliveryFee, 0).total == gross
  {
    var o1, o2 := CalculateOrderTotal(subtotal, deliveryFee, d1), CalculateOrderTotal(subtotal, deliveryFee, d2);
    var gross := subtotal + deliveryFee + CalculateTax(subtotal);
    if o1.total == 0 {
      assert d1 >= gross;
    }
    if o2.total > 0 {
      assert o1.total > 0;
    }
  }

  /** The checkout's figures: subtotal 747 and fee 30 give tax 37; a discount of 149 leaves 665. */
  lemma OrderTotalExample()
    ensures CalculateTax(747) == 37
    ensures CalculateOrderTotal(747, 30, 149) == OrderTotal(747, 30, 37, 149, 665)
    ensures CalculateOrderTotal(100, 0, 1000).total == 0
  {
  }
}
