/** The order price calculator (`calcPrices`): item subtotal, a free-shipping
    threshold, 15 % tax rounded to the cent, and the total. */
module Pricing {
  import opened Models

  /** Orders strictly above $100.00 ship free; the others pay a flat $10.00. */
  const FreeShippingAbove: nat := 10000
  const FlatShipping: nat := 1000
  const TaxPercent: nat := 15

  /** Σ price × qty over the lines: the reference definition of the subtotal. */
  function Subtotal(items: seq<LineItem>): nat {
    if |items| == 0 then 0 else items[0].price * items[0].qty + Subtotal(items[1..])
  }

  /** The left fold `items.reduce((acc, item) => acc + item.price * item.qty, acc)`. */
  function Accumulate(acc: nat, items: seq<LineItem>): nat
    decreases |items|
  {
    if |items| == 0 then acc
    else Accumulate(acc + items[0].price * items[0].qty, items[1..])
  }

  /** The fold computes the subtotal, whatever it starts from. */
  lemma {:induction false} AccumulateIsSubtotal(acc: nat, items: seq<LineItem>)
    ensures Accumulate(acc, items) == acc + Subtotal(items)
    decreases |items|
  {
    if |items| > 0 {
      AccumulateIsSubtotal(acc + items[0].price * items[0].qty, items[1..]);
    }
  }

  /** Rounds an amount in hundredths of a cent to the nearest cent, halves up
      (`toFixed(2)` on the dollar amount). */
  function RoundToCent(hundredths: nat): (r: nat)
    ensures -50 <= hundredths - 100 * r < 50
  {
    (hundredths + 50) / 100
  }

  /** `calcPrices`: the subtotal of the lines, shipping that is zero exactly
      when the subtotal exceeds $100.00 and $10.00 otherwise, the tax nearest
      to 15 % of the subtotal (halves rounded up), and their sum. */
  function CalcPrices(items: seq<LineItem>): (p: Prices)
    ensures p.itemsPrice == Subtotal(items)
    ensures p.shippingPrice == 0 <==> p.itemsPrice > FreeShippingAbove
    ensures p.shippingPrice != 0 ==> p.shippingPrice == FlatShipping
    ensures -50 <= TaxPercent * p.itemsPrice - 100 * p.taxPrice < 50
    ensures p.totalPrice == p.itemsPrice + p.shippingPrice + p.taxPrice
  {
    AccumulateIsSubtotal(0, items);
    var itemsPrice := Accumulate(0, items);
    var shippingPrice := if itemsPrice > FreeShippingAbove then 0 else FlatShipping;
    var taxPrice := RoundToCent(itemsPrice * TaxPercent);
    Prices(itemsPrice, shippingPrice, taxPrice, itemsPrice + shippingPrice + taxPrice)
  }

  /** The subtotal of two carts placed together is the sum of their subtotals. */
  lemma {:induction false} SubtotalAppend(a: seq<LineItem>, b: seq<LineItem>)
    ensures Subtotal(a + b) == Subtotal(a) + Subtotal(b)
    decreases |a|
  {
    if |a| == 0 {
      assert a + b == b;
    } else {
      assert (a + b)[1..] == a[1..] + b;
      SubtotalAppend(a[1..], b);
    }
  }

  /** Worked examples: 10.00 × 2 costs 20.00 + 10.00 shipping + 3.00 tax = 33.00;
      30.00 × 4 costs 120.00 with free shipping and 18.00 tax = 138.00; a cart
      of exactly 100.00 still pays shipping; an empty cart pays only shipping. */
  lemma CalcPricesExamples(p: ProductId)
    ensures CalcPrices([LineItem(p, "", "", 2, 1000)]) == Prices(2000, 1000, 300, 3300)
    ensures CalcPrices([LineItem(p, "", "", 4, 3000)]) == Prices(12000, 0, 1800, 13800)
    ensures CalcPrices([LineItem(p, "", "", 1, 10000)]) == Prices(10000, 1000, 1500, 12500)
    ensures CalcPrices([]) == Prices(0, 1000, 0, 1000)
  {
    forall line: LineItem
      ensures Subtotal([line]) == line.price * line.qty
    {
      assert [line][1..] == [];
    }
  }
}
