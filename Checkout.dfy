/**
 * The checkout page's money logic: the subtotal of its cart, the promo code
 * that takes 20% off the subtotal, and the order summary built from them.
 */
module Checkout {
  import opened Types
  import opened Text
  import opened OrderTotals

  datatype CheckoutLine = CheckoutLine(name: string, quantity: nat, price: nat, restaurant: string)

  /** The page's fixed cart: two Butter Chicken Combos at 299 and one Masala Dosa Special at 149. */
  const MockCart: seq<CheckoutLine> := [
    CheckoutLine("Butter Chicken Combo", 2, 299, "Spice Garden"),
    CheckoutLine("Masala Dosa Special", 1, 149, "Spice Garden")]

  const DeliveryFee: nat := 30

  /** The one promo code the page accepts, compared after upper-casing the input. */
  const PromoCode: string := "SPICE20"

  function Priced(items: seq<CheckoutLine>): seq<PricedLine>
  {
    seq(|items|, i requires 0 <= i < |items| => PricedLine(items[i].price, items[i].quantity))
  }

  /**
   * `subtotal`: the same left fold of price times quantity as
   * `calculateCartTotal`, so no line costs more than the subtotal, and the
   * subtotal is 0 exactly when every line is free.
   */
  function Subtotal(items: seq<CheckoutLine>): (subtotal: nat)
    ensures forall i :: 0 <= i < |items| ==> items[i].price * items[i].quantity <= subtotal
    ensures subtotal == 0 <==> forall i :: 0 <= i < |items| ==> items[i].price * items[i].quantity == 0
  {
    var priced := Priced(items);
    assert forall i :: 0 <= i < |items| ==> LineAmount(priced[i]) == items[i].price * items[i].quantity;
    CartTotal(priced)
  }

  /**
   * `handleApplyPromo`'s new discount: the accepted code sets it to 20% of
   * the subtotal rounded down; any other code leaves the current one.
   */
  function PromoDiscount(code: string, subtotal: nat, current: nat): (d: nat)
    ensures ToUpper(code) == PromoCode ==> 5 * d <= subtotal < 5 * d + 5
    ensures ToUpper(code) != PromoCode ==> d == current
  {
    if ToUpper(code) == PromoCode then subtotal / 5 else current
  }

  /**
   * Applying the accepted code twice gives what applying it once gave; the
   * discount it sets never exceeds the subtotal, so the order total is then
   * never clamped at 0 and still covers the delivery fee and the tax.
   */
  lemma PromoSpec(code: string, subtotal: nat, deliveryFee: nat, current: nat)
    requires ToUpper(code) == PromoCode
    ensures var d := PromoDiscount(code, subtotal, current);
      && PromoDiscount(code, subtotal, d) == d
      && d <= subtotal
      && CalculateOrderTotal(subtotal, deliveryFee, d).total + d == subtotal + deliveryFee + CalculateTax(subtotal)
      && CalculateOrderTotal(subtotal, deliveryFee, d).total >= deliveryFee + CalculateTax(subtotal)
  {
    var d := PromoDiscount(code, subtotal, current);
    OrderTotalSpec(subtotal, deliveryFee, d, d);
  }

  /** Upper-casing a lower-cased string gives the upper-cased original. */
  lemma UpperOfLower(s: string)
    ensures ToUpper(ToLower(s)) == ToUpper(s)
  {
    forall i | 0 <= i < |s|
      ensures ToUpper(ToLower(s))[i] == ToUpper(s)[i]
    {
      assert ToLower(s)[i] == LowerChar(s[i]);
    }
  }

  /** The code is accepted whatever the case of its letters. */
  lemma PromoIgnoresCase(code: string, subtotal: nat, current: nat)
    ensures PromoDiscount(ToLower(code), subtotal, current) == PromoDiscount(code, subtotal, current)
    ensures PromoDiscount("spice20", subtotal, current) == subtotal / 5
  {
    UpperOfLower(code);
    assert ToUpper("spice20") == PromoCode;
  }

  /** The page's fixed cart comes to 747: 149 off with the code, 665 to pay, 814 without it. */
  lemma CheckoutExample()
    ensures Subtotal(MockCart) == 747
    ensures PromoDiscount(PromoCode, 747, 0) == 149
    ensures CalculateOrderTotal(747, DeliveryFee, 149).total == 665
    ensures CalculateOrderTotal(747, DeliveryFee, 0).total == 814
  {
    var lines := [PricedLine(299, 2), PricedLine(149, 1)];
    assert Priced(MockCart) == lines;
    assert lines[..1] == [PricedLine(299, 2)] && lines[..1][..0] == [];
    assert CartTotal(lines[..1]) == 598;
    assert ToUpper(PromoCode) == PromoCode;
    OrderTotalExample();
  }

  /** `CheckoutPage`: the promo-code state and the summary derived from it. */
  class CheckoutPage {
    const cartItems: seq<CheckoutLine>
    var promoCode: string
    var appliedDiscount: nat

    constructor()
      ensures cartItems == MockCart && promoCode == "" && appliedDiscount == 0
      ensures Valid()
    {
      cartItems := MockCart;
      promoCode := "";
      appliedDiscount := 0;
    }

    /** No discount, or the one the accepted code sets. */
    ghost predicate Valid()
      reads this
    {
      appliedDiscount == 0 || appliedDiscount == Subtotal(cartItems) / 5
    }

    /** The promo input's `onChange`. */
    method SetPromoCode(code: string)
      modifies this
      ensures promoCode == code && appliedDiscount == old(appliedDiscount)
      ensures old(Valid()) ==> Valid()
    {
      promoCode := code;
    }

    /** `handleApplyPromo` */
    method HandleApplyPromo()
      requires Valid()
      modifies this
      ensures appliedDiscount == PromoDiscount(promoCode, Subtotal(cartItems), old(appliedDiscount))
      ensures promoCode == old(promoCode)
      ensures Valid()
    {
      if ToUpper(promoCode) == PromoCode {
        appliedDiscount := Subtotal(cartItems) / 5;
      }
    }

    /** `orderTotal`: the summary is never clamped, since the discount is at most a fifth of the subtotal. */
    function OrderSummary(): (o: OrderTotal)
      reads this
      ensures o.subtotal == Subtotal(cartItems) && o.deliveryFee == DeliveryFee && o.discount == appliedDiscount
      ensures o.taxes == CalculateTax(o.subtotal)
      ensures Valid() ==> o.total + o.discount == o.subtotal + o.deliveryFee + o.taxes
    {
      CalculateOrderTotal(Subtotal(cartItems), DeliveryFee, appliedDiscount)
    }

    /**
     * The "Promo applied!" banner and the discount row appear only for a
     * positive discount: once the accepted code has been applied to a
     * subtotal of at least 5 rupees.
     */
    predicate ShowsDiscount(): (shown: bool)
      reads this
      ensures Valid() ==> (shown <==> Subtotal(cartItems) >= 5 && appliedDiscount == Subtotal(cartItems) / 5)
    {
      appliedDiscount > 0
    }
  }
}
