/** The derived values of `useCart`: `totalItems`, `totalPrice`,
    `uniqueItems` and the checkout summary of `getCartSummary`.

    Money is exact `real` arithmetic; the source computes with IEEE doubles.
    The source sums with a left-to-right `reduce`, modelled as an
    accumulator fold; the sums used everywhere else recurse from the front,
    and `TotalsAreReductions` shows the two agree. */
module CartTotals {
  import opened Products
  import opened Seqs
  import opened Cart
  import opened CartLaws

  /** `totalItems`: the sum of the quantities. */
  function TotalItems(c: Cart): int
  {
    if |c| == 0 then 0 else c[0].quantity + TotalItems(c[1..])
  }

  /** The amount one line adds to `totalPrice`. */
  function LinePrice(l: Line): real
  {
    l.item.price * (l.quantity as real)
  }

  /** `totalPrice`: the sum of unit price times quantity over the lines, with
      no discount applied. */
  function TotalPrice(c: Cart): real
  {
    if |c| == 0 then 0.0 else LinePrice(c[0]) + TotalPrice(c[1..])
  }

  /** `cartItems.reduce((total, item) => total + item.quantity, acc)`: the
      accumulator visits the lines from the first to the last. */
  function ReduceItems(acc: int, c: Cart): int
    decreases |c|
  {
    if |c| == 0 then acc else ReduceItems(acc + c[0].quantity, c[1..])
  }

  /** The same `reduce` with `item.price * item.quantity` as the summand. */
  function ReducePrice(acc: real, c: Cart): real
    decreases |c|
  {
    if |c| == 0 then acc else ReducePrice(acc + LinePrice(c[0]), c[1..])
  }

  /** Folding from any start value adds the sums to it, so both `reduce`
      calls from 0 compute `TotalItems` and `TotalPrice`. */
  lemma {:induction false} TotalsAreReductions(acc: int, accPrice: real, c: Cart)
    ensures ReduceItems(acc, c) == acc + TotalItems(c)
    ensures ReducePrice(accPrice, c) == accPrice + TotalPrice(c)
    decreases |c|
  {
    if |c| > 0 {
      TotalsAreReductions(acc + c[0].quantity, accPrice + LinePrice(c[0]), c[1..]);
    }
  }

  /** On a cart whose quantities are all at least 1, `totalItems` is at least
      `uniqueItems`, and in particular positive unless the cart is empty. */
  lemma {:induction false} TotalItemsAtLeastLines(c: Cart)
    requires forall i :: 0 <= i < |c| ==> c[i].quantity >= 1
    ensures TotalItems(c) >= |c|
  {
    if |c| > 0 {
      assert forall i :: 0 <= i < |c[1..]| ==> c[1..][i] == c[i + 1];
      TotalItemsAtLeastLines(c[1..]);
    }
  }

  /** Non-negative prices and quantities give a non-negative `totalPrice`. */
  lemma {:induction false} TotalPriceNonNegative(c: Cart)
    requires forall i :: 0 <= i < |c| ==> c[i].item.price >= 0.0 && c[i].quantity >= 0
    ensures TotalPrice(c) >= 0.0
  {
    if |c| > 0 {
      assert forall i :: 0 <= i < |c[1..]| ==> c[1..][i] == c[i + 1];
      TotalPriceNonNegative(c[1..]);
      var l := c[0];
      assert LinePrice(l) >= 0.0 by {
        assert l.item.price >= 0.0 && (l.quantity as real) >= 0.0;
      }
    }
  }

  /** Changing a line's quantity changes its price by the unit price times
      the change in quantity. */
  lemma LinePriceDifference(l: Line, d: int)
    ensures LinePrice(l.(quantity := l.quantity + d)) == LinePrice(l) + l.item.price * (d as real)
  {
  }

  /** Changing the quantity of the line at `k` by `d` moves `totalItems` by
      `d` and `totalPrice` by `d` units at that line's snapshot price. */
  lemma SpliceDelta(c: Cart, k: int, d: int)
    requires 0 <= k < |c|
    ensures var r := c[k := c[k].(quantity := c[k].quantity + d)];
      && TotalItems(r) == TotalItems(c) + d
      && TotalPrice(r) == TotalPrice(c) + c[k].item.price * (d as real)
  {
    TotalsOfSplice(c, k, c[k].(quantity := c[k].quantity + d));
    LinePriceDifference(c[k], d);
  }

  lemma {:induction false} TotalsConcat(a: Cart, b: Cart)
    ensures TotalItems(a + b) == TotalItems(a) + TotalItems(b)
    ensures TotalPrice(a + b) == TotalPrice(a) + TotalPrice(b)
  {
    if |a| == 0 {
      assert a + b == b;
    } else {
      assert (a + b)[1..] == a[1..] + b;
      TotalsConcat(a[1..], b);
    }
  }

  /** Replacing the line at `k` changes the totals by the difference between
      the new line and the old one. */
  lemma TotalsOfSplice(c: Cart, k: int, l: Line)
    requires 0 <= k < |c|
    ensures TotalItems(c[k := l]) == TotalItems(c) - c[k].quantity + l.quantity
    ensures TotalPrice(c[k := l]) == TotalPrice(c) - LinePrice(c[k]) + LinePrice(l)
  {
    SplitAt(c, k);
    TotalsConcat(c[..k], [c[k]] + c[k + 1..]);
    TotalsConcat([c[k]], c[k + 1..]);
    TotalsConcat(c[..k], [l] + c[k + 1..]);
    TotalsConcat([l], c[k + 1..]);
    assert c[k := l] == c[..k] + ([l] + c[k + 1..]);
  }

  /** Deleting the line at `k` takes its quantity and price out of the
      totals. */
  lemma TotalsOfDelete(c: Cart, k: int)
    requires 0 <= k < |c|
    ensures TotalItems(Delete(c, k)) == TotalItems(c) - c[k].quantity
    ensures TotalPrice(Delete(c, k)) == TotalPrice(c) - LinePrice(c[k])
  {
    SplitAt(c, k);
    TotalsConcat(c[..k], [c[k]] + c[k + 1..]);
    TotalsConcat([c[k]], c[k + 1..]);
    TotalsConcat(c[..k], c[k + 1..]);
    assert Delete(c, k) == c[..k] + c[k + 1..];
  }

  // ---------------------------------------------------------------------------
  // How the transitions move the totals

  /** Adding a new id raises `totalItems` by exactly the requested quantity
      and `totalPrice` by the price of that many units of the product. */
  lemma AddNewLineTotals(c: Cart, p: Product, quantity: int, now: string)
    requires p.id != 0 && quantity <= p.stock && !IsInCart(c, p.id)
    ensures var r := AddToCart(c, Some(p), quantity, now).cart;
      && TotalItems(r) == TotalItems(c) + quantity
      && TotalPrice(r) == TotalPrice(c) + LinePrice(Line(p, quantity, now))
  {
    assert AddToCart(c, Some(p), quantity, now).cart == c + [Line(p, quantity, now)];
    TotalsConcat(c, [Line(p, quantity, now)]);
  }

  /** Merging into the line at `k` within stock raises `totalItems` by
      exactly the requested quantity, and `totalPrice` by that many units at
      the line's own snapshot unit price (not the incoming product's). */
  lemma AddMergeTotals(c: Cart, k: int, p: Product, quantity: int, now: string)
    requires UniqueIds(c) && 0 <= k < |c| && c[k].Id() == p.id && p.id != 0
    requires quantity <= p.stock && c[k].quantity + quantity <= p.stock
    ensures var r := AddToCart(c, Some(p), quantity, now).cart;
      && TotalItems(r) == TotalItems(c) + quantity
      && TotalPrice(r) == TotalPrice(c) + c[k].item.price * (quantity as real)
  {
    AddMergeSumsQuantity(c, k, p, quantity, now);
    SpliceDelta(c, k, quantity);
  }

  /** With unique ids, removing the line at `k` takes exactly its quantity and
      its price out of the totals. */
  lemma RemoveChangesTotals(c: Cart, k: int)
    requires UniqueIds(c) && 0 <= k < |c|
    ensures var r := RemoveFromCart(c, c[k].Id()).cart;
      && TotalItems(r) == TotalItems(c) - c[k].quantity
      && TotalPrice(r) == TotalPrice(c) - LinePrice(c[k])
  {
    RemoveDeletesLine(c, k);
    TotalsOfDelete(c, k);
  }

  /** With unique ids, setting the line at `k` to a quantity within its stock
      moves the totals by the change in that line alone. */
  lemma UpdateChangesTotals(c: Cart, k: int, n: int)
    requires UniqueIds(c) && 0 <= k < |c| && 1 <= n <= c[k].Stock()
    ensures var r := UpdateQuantity(c, c[k].Id(), n).cart;
      && TotalItems(r) == TotalItems(c) - c[k].quantity + n
      && TotalPrice(r) == TotalPrice(c) - LinePrice(c[k]) + LinePrice(c[k].(quantity := n))
  {
    UpdateSetsQuantity(c, k, n);
    TotalsOfSplice(c, k, c[k].(quantity := n));
  }

  // ---------------------------------------------------------------------------
  // getCartSummary

  const TaxRate: real := 0.1
  const FreeShippingAbove: real := 50.0
  const ShippingFee: real := 5.99

  datatype Summary = Summary(
    items: Cart,
    totalItems: int,
    totalPrice: real,
    uniqueItems: nat,
    isEmpty: bool,
    subtotal: real,
    tax: real,
    shipping: real,
    total: real)

  /** `getCartSummary()`: tax is 10% of the subtotal, shipping is free only
      strictly above 50 (a subtotal of exactly 50 pays 5.99), and the total is
      subtotal plus tax plus shipping. */
  function GetCartSummary(c: Cart): (s: Summary)
    ensures s.items == c
    ensures s.totalItems == TotalItems(c) && s.uniqueItems == |c|
    ensures s.subtotal == s.totalPrice == TotalPrice(c)
    ensures s.isEmpty <==> |c| == 0
    ensures s.shipping == 0.0 <==> s.subtotal > FreeShippingAbove
    ensures s.shipping != 0.0 ==> s.shipping == ShippingFee
    ensures s.tax * 10.0 == s.subtotal
    ensures s.total == s.subtotal + s.tax + s.shipping
  {
    var price := TotalPrice(c);
    Summary(
      items := c,
      totalItems := TotalItems(c),
      totalPrice := price,
      uniqueItems := |c|,
      isEmpty := |c| == 0,
      subtotal := price,
      tax := price * TaxRate,
      shipping := if price > FreeShippingAbove then 0.0 else ShippingFee,
      total := price + price * TaxRate + (if price > FreeShippingAbove then 0.0 else ShippingFee))
  }

  /** On a cart whose quantities are at least 1, the summary is empty iff it
      holds no items. */
  lemma EmptyIffNoItems(c: Cart)
    requires forall i :: 0 <= i < |c| ==> c[i].quantity >= 1
    ensures GetCartSummary(c).isEmpty <==> GetCartSummary(c).totalItems == 0
  {
    TotalItemsAtLeastLines(c);
  }

  /** After `clearCart` the summary shows no items, a zero subtotal and tax,
      and is empty; shipping is still charged, so the total is 5.99. */
  lemma ClearedSummary(c: Cart)
    ensures var s := GetCartSummary(ClearCart(c).cart);
      && s.isEmpty && s.totalItems == 0 && s.uniqueItems == 0
      && s.totalPrice == 0.0 && s.tax == 0.0
      && s.shipping == ShippingFee && s.total == ShippingFee
  {
  }

  /** The free-shipping threshold is strict: a cart of exactly 50.00 pays
      shipping and one of 50.01 does not, so the cheaper cart costs more. */
  lemma ShippingBoundary()
    ensures var at := [Line(Product(1, "A", "", 50.0, "", "Home", 5, 3), 1, "t")];
      var above := [Line(Product(1, "A", "", 50.01, "", "Home", 5, 3), 1, "t")];
      && GetCartSummary(at).shipping == ShippingFee
      && GetCartSummary(above).shipping == 0.0
      && GetCartSummary(above).total == 50.01 + 5.001
      && GetCartSummary(at).total > GetCartSummary(above).total
  {
    var at := [Line(Product(1, "A", "", 50.0, "", "Home", 5, 3), 1, "t")];
    var above := [Line(Product(1, "A", "", 50.01, "", "Home", 5, 3), 1, "t")];
    assert TotalPrice(at) == 50.0;
    assert TotalPrice(above) == 50.01;
  }
}
