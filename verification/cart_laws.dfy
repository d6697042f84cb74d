/** What the cart transitions promise: the rejection rules of `addToCart`,
    the exact effect of each successful transition, preservation of the cart
    invariants (one line per id, `1 <= quantity <= stock`), and that a
    transition on one id leaves every other line and the order alone. */
module CartLaws {
  import opened Products
  import opened Seqs
  import opened Cart

  // ---------------------------------------------------------------------------
  // Positional helpers for carts with unique ids

  /** With unique ids, the line at `k` is the one `find` returns for its id. */
  lemma FindUnique(c: Cart, k: int)
    requires UniqueIds(c) && 0 <= k < |c|
    ensures FirstIndex(c, c[k].Id()) == k
    ensures GetCartItem(c, c[k].Id()) == Some(c[k])
  {
  }

  /** With unique ids, mapping over the lines of one id rewrites one line. */
  lemma MapIdSplice(c: Cart, k: int, f: Rewrite)
    requires UniqueIds(c) && 0 <= k < |c|
    ensures MapId(c, c[k].Id(), f) == c[k := f.Apply(c[k])]
  {
    MapIdPointwise(c, c[k].Id(), f);
    var r := MapId(c, c[k].Id(), f);
    var s := c[k := f.Apply(c[k])];
    assert |r| == |s|;
    forall i | 0 <= i < |r|
      ensures r[i] == s[i]
    {
      if i < k {
        assert s[i] == c[i];
      } else if i > k {
        assert s[i] == c[i];
      }
    }
  }

  /** No line of `s` carries `id`. */
  ghost predicate Lacks(s: Cart, id: int)
  {
    forall i :: 0 <= i < |s| ==> s[i].Id() != id
  }

  /** With unique ids, the lines before and after `k` lack its id. */
  lemma UniqueSplit(c: Cart, k: int)
    requires UniqueIds(c) && 0 <= k < |c|
    ensures Lacks(c[..k], c[k].Id()) && Lacks(c[k + 1..], c[k].Id())
  {
    var before, after := c[..k], c[k + 1..];
    forall i | 0 <= i < |before|
      ensures before[i].Id() != c[k].Id()
    {
      assert before[i] == c[i];
    }
    forall i | 0 <= i < |after|
      ensures after[i].Id() != c[k].Id()
    {
      assert after[i] == c[k + 1 + i];
    }
  }

  /** Filtering an id out of lines that lack it changes nothing. */
  lemma KeepLacking(s: Cart, id: int)
    requires Lacks(s, id)
    ensures Keep(s, OtherThan(id)) == s
  {
    KeepAll(s, OtherThan(id));
  }

  /** With unique ids, filtering one id out deletes exactly the line at `k`. */
  lemma KeepSplice(c: Cart, k: int)
    requires UniqueIds(c) && 0 <= k < |c|
    ensures Keep(c, OtherThan(c[k].Id())) == Delete(c, k)
  {
    var id := c[k].Id();
    var p := OtherThan(id);
    var before, after := c[..k], c[k + 1..];
    SplitAt(c, k);
    UniqueSplit(c, k);
    KeepLacking(before, id);
    KeepLacking(after, id);
    KeepConcat([c[k]], after, p);
    assert Keep([c[k]], p) == [];
    KeepConcat(before, [c[k]] + after, p);
  }

  /** Replacing the line at `k` by one of the same id within its stock keeps
      the cart valid. */
  lemma SpliceValid(c: Cart, k: int, l: Line)
    requires Valid(c) && 0 <= k < |c|
    requires l.Id() == c[k].Id() && 1 <= l.quantity <= l.Stock()
    ensures Valid(c[k := l])
  {
    var s := c[k := l];
    assert forall i :: 0 <= i < |s| && i != k ==> s[i] == c[i];
  }

  /** Deleting the line at `k` keeps the cart valid. */
  lemma DeleteValid(c: Cart, k: int)
    requires Valid(c) && 0 <= k < |c|
    ensures Valid(Delete(c, k))
  {
    var s := Delete(c, k);
    assert forall i :: 0 <= i < |s| ==> s[i] == (if i < k then c[i] else c[i + 1]);
  }

  // ---------------------------------------------------------------------------
  // addToCart

  /** A missing product, or one whose id is falsy, is refused and the cart is
      unchanged. */
  lemma AddRejectsInvalidProduct(c: Cart, product: Option<Product>, quantity: int, now: string)
    requires product.None? || product.value.id == 0
    ensures AddToCart(c, product, quantity, now) == Step(c, InvalidProduct)
  {
  }

  /** A quantity above the product's stock is refused and the cart is
      unchanged, whether or not the id is already in the cart. */
  lemma AddRejectsOverStock(c: Cart, p: Product, quantity: int, now: string)
    requires p.id != 0 && p.stock < quantity
    ensures AddToCart(c, Some(p), quantity, now) == Step(c, InsufficientStock)
  {
  }

  /** Adding to the line at `k` beyond the product's stock is refused in full:
      the quantity is not clamped and the cart is unchanged. */
  lemma AddMergeRejectedInFull(c: Cart, k: int, p: Product, quantity: int, now: string)
    requires UniqueIds(c) && 0 <= k < |c| && c[k].Id() == p.id && p.id != 0
    requires quantity <= p.stock < c[k].quantity + quantity
    ensures AddToCart(c, Some(p), quantity, now) == Step(c, StockLimit)
  {
    FindUnique(c, k);
  }

  /** A merge within stock maps the new quantity over the lines of the id. */
  lemma AddMergeMaps(c: Cart, p: Product, quantity: int, now: string, e: Line)
    requires p.id != 0 && quantity <= p.stock
    requires GetCartItem(c, p.id) == Some(e) && e.quantity + quantity <= p.stock
    ensures AddToCart(c, Some(p), quantity, now)
         == Step(MapId(c, p.id, SetQuantity(e.quantity + quantity)), Updated)
  {
  }

  /** Adding to the line at `k` within stock sets that line's quantity to the
      sum and changes nothing else: every other line, their order and the
      line's own snapshot stay as they were. */
  lemma AddMergeSumsQuantity(c: Cart, k: int, p: Product, quantity: int, now: string)
    requires UniqueIds(c) && 0 <= k < |c| && c[k].Id() == p.id && p.id != 0
    requires quantity <= p.stock && c[k].quantity + quantity <= p.stock
    ensures AddToCart(c, Some(p), quantity, now)
         == Step(c[k := c[k].(quantity := c[k].quantity + quantity)], Updated)
  {
    var n := c[k].quantity + quantity;
    FindUnique(c, k);
    AddMergeMaps(c, p, quantity, now, c[k]);
    MapIdSplice(c, k, SetQuantity(n));
    assert SetQuantity(n).Apply(c[k]) == c[k].(quantity := n);
  }

  /** Adding a new id within stock appends exactly one line, carrying the
      requested quantity and the product's stock, and leaves the existing
      lines as they were. */
  lemma AddAppendsNewLine(c: Cart, p: Product, quantity: int, now: string)
    requires p.id != 0 && quantity <= p.stock && !IsInCart(c, p.id)
    ensures var r := AddToCart(c, Some(p), quantity, now);
      && r.notice == Added
      && |r.cart| == |c| + 1
      && r.cart[..|c|] == c
      && r.cart[|c|].Id() == p.id
      && r.cart[|c|].quantity == quantity
      && r.cart[|c|].Stock() == p.stock
  {
  }

  /** Every line of the product's id records at least the product's current
      stock. This holds when the product handed to `addToCart` is the very
      snapshot stored in the cart. */
  ghost predicate SnapshotCovers(c: Cart, p: Product)
  {
    forall i :: 0 <= i < |c| && c[i].Id() == p.id ==> p.stock <= c[i].Stock()
  }

  /** A merge within stock keeps the cart valid when the product's stock is
      no more than the stock recorded in the line. */
  lemma AddMergePreservesValid(c: Cart, k: int, p: Product, quantity: int, now: string)
    requires Valid(c) && 0 <= k < |c| && c[k].Id() == p.id && p.id != 0 && quantity >= 1
    requires quantity <= p.stock && c[k].quantity + quantity <= p.stock <= c[k].Stock()
    ensures Valid(AddToCart(c, Some(p), quantity, now).cart)
  {
    AddMergeSumsQuantity(c, k, p, quantity, now);
    SpliceValid(c, k, c[k].(quantity := c[k].quantity + quantity));
  }

  /** Appending a new id with a quantity between 1 and its stock keeps the
      cart valid. */
  lemma AddAppendPreservesValid(c: Cart, p: Product, quantity: int, now: string)
    requires Valid(c) && p.id != 0 && 1 <= quantity <= p.stock && !IsInCart(c, p.id)
    ensures Valid(AddToCart(c, Some(p), quantity, now).cart)
  {
    var d := c + [Line(p, quantity, now)];
    assert AddToCart(c, Some(p), quantity, now).cart == d;
    assert forall i :: 0 <= i < |c| ==> d[i] == c[i];
  }

  /** `addToCart` with a positive quantity keeps the cart valid, provided the
      product's stock does not exceed the stock recorded in its existing line
      (the merge checks the new product's stock but keeps the line's old
      snapshot; see `AddStaleSnapshotExceedsStock`). */
  lemma AddPreservesValid(c: Cart, product: Option<Product>, quantity: int, now: string)
    requires Valid(c) && quantity >= 1
    requires product.Some? ==> SnapshotCovers(c, product.value)
    ensures Valid(AddToCart(c, product, quantity, now).cart)
  {
    if product.Some? && product.value.id != 0 && quantity <= product.value.stock {
      var p := product.value;
      if IsInCart(c, p.id) {
        var k :| 0 <= k < |c| && c[k].Id() == p.id;
        if c[k].quantity + quantity <= p.stock {
          AddMergePreservesValid(c, k, p, quantity, now);
        } else {
          AddMergeRejectedInFull(c, k, p, quantity, now);
        }
      } else {
        AddAppendPreservesValid(c, p, quantity, now);
      }
    }
  }

  /** The premise of `AddPreservesValid` is needed: when the product passed in
      has more stock than the snapshot in the cart (the catalog is generated
      afresh on each load while the cart persists), the merged quantity can
      exceed the stock recorded in the line. */
  lemma AddStaleSnapshotExceedsStock()
    ensures var old5 := Product(1, "Mug", "A mug", 4.0, "", "Home", 3, 5);
      var c := [Line(old5, 5, "t0")];
      var r := AddToCart(c, Some(old5.(stock := 10)), 3, "t1");
      && Valid(c)
      && r.notice == Updated
      && r.cart[0].quantity == 8
      && !QuantitiesInStock(r.cart)
  {
    var old5 := Product(1, "Mug", "A mug", 4.0, "", "Home", 3, 5);
    var c := [Line(old5, 5, "t0")];
    FindUnique(c, 0);
  }

  /** The premise `quantity >= 1` of `AddPreservesValid` is needed too:
      `addToCart` only compares the quantity with the stock, so a quantity of
      0 appends a line holding no units. */
  lemma AddAcceptsZeroQuantity()
    ensures var p := Product(2, "Lamp", "A lamp", 20.0, "", "Home", 4, 5);
      var r := AddToCart([], Some(p), 0, "t0");
      && r == Step([Line(p, 0, "t0")], Added)
      && !QuantitiesInStock(r.cart)
  {
    var p := Product(2, "Lamp", "A lamp", 20.0, "", "Home", 4, 5);
    assert GetCartItem([], p.id) == None;
    var r := AddToCart([], Some(p), 0, "t0");
    assert r.cart[0].quantity == 0;
  }

  // ---------------------------------------------------------------------------
  // removeFromCart

  /** With unique ids, removing the id of the line at `k` deletes exactly that
      line and keeps the rest in order. */
  lemma RemoveDeletesLine(c: Cart, k: int)
    requires UniqueIds(c) && 0 <= k < |c|
    ensures RemoveFromCart(c, c[k].Id()) == Step(Delete(c, k), Removed)
  {
    KeepSplice(c, k);
  }

  lemma RemovePreservesValid(c: Cart, id: int)
    requires Valid(c)
    ensures Valid(RemoveFromCart(c, id).cart)
  {
    if IsInCart(c, id) {
      var k :| 0 <= k < |c| && c[k].Id() == id;
      RemoveDeletesLine(c, k);
      DeleteValid(c, k);
    }
  }

  // ---------------------------------------------------------------------------
  // updateQuantity

  /** A quantity below 1 is a removal. */
  lemma UpdateBelowOneRemoves(c: Cart, id: int, n: int)
    requires n < 1
    ensures UpdateQuantity(c, id, n) == RemoveFromCart(c, id)
  {
  }

  /** A quantity above the line's own recorded stock leaves the cart unchanged
      and warns. */
  lemma UpdateOverStockUnchanged(c: Cart, k: int, n: int)
    requires UniqueIds(c) && 0 <= k < |c| && 1 <= n && c[k].Stock() < n
    ensures UpdateQuantity(c, c[k].Id(), n) == Step(c, StockLimit)
  {
    MapIdSplice(c, k, ReviseQuantity(n));
    assert c[k := c[k]] == c;
  }

  /** A quantity between 1 and the line's stock becomes that line's quantity;
      nothing else changes. */
  lemma UpdateSetsQuantity(c: Cart, k: int, n: int)
    requires UniqueIds(c) && 0 <= k < |c| && 1 <= n <= c[k].Stock()
    ensures UpdateQuantity(c, c[k].Id(), n) == Step(c[k := c[k].(quantity := n)], Silent)
  {
    MapIdSplice(c, k, ReviseQuantity(n));
  }

  lemma UpdatePreservesValid(c: Cart, id: int, n: int)
    requires Valid(c)
    ensures Valid(UpdateQuantity(c, id, n).cart)
  {
    if n < 1 {
      RemovePreservesValid(c, id);
    } else if IsInCart(c, id) {
      var k :| 0 <= k < |c| && c[k].Id() == id;
      if n <= c[k].Stock() {
        UpdateSetsQuantity(c, k, n);
        SpliceValid(c, k, c[k].(quantity := n));
      } else {
        UpdateOverStockUnchanged(c, k, n);
      }
    }
  }

  // ---------------------------------------------------------------------------
  // incrementQuantity / decrementQuantity

  /** On a cart with unique ids, incrementing the line at `k` is
      `updateQuantity` with that line's quantity plus one. */
  lemma IncrementIsUpdate(c: Cart, k: int)
    requires UniqueIds(c) && 0 <= k < |c|
    ensures IncrementQuantity(c, c[k].Id()) == UpdateQuantity(c, c[k].Id(), c[k].quantity + 1)
  {
    FindUnique(c, k);
  }

  /** On a cart with unique ids, decrementing the line at `k` is
      `updateQuantity` with that line's quantity minus one. */
  lemma DecrementIsUpdate(c: Cart, k: int)
    requires UniqueIds(c) && 0 <= k < |c|
    ensures DecrementQuantity(c, c[k].Id()) == UpdateQuantity(c, c[k].Id(), c[k].quantity - 1)
  {
    FindUnique(c, k);
  }

  /** Decrementing a line of quantity 1 removes it. */
  lemma DecrementOfOneRemoves(c: Cart, k: int)
    requires UniqueIds(c) && 0 <= k < |c| && c[k].quantity == 1
    ensures DecrementQuantity(c, c[k].Id()) == Step(Delete(c, k), Removed)
  {
    DecrementIsUpdate(c, k);
    RemoveDeletesLine(c, k);
  }

  lemma IncrementPreservesValid(c: Cart, id: int)
    requires Valid(c)
    ensures Valid(IncrementQuantity(c, id).cart)
  {
    if IsInCart(c, id) {
      var n := GetCartItem(c, id).value.quantity + 1;
      assert IncrementQuantity(c, id) == UpdateQuantity(c, id, n);
      UpdatePreservesValid(c, id, n);
    }
  }

  lemma DecrementPreservesValid(c: Cart, id: int)
    requires Valid(c)
    ensures Valid(DecrementQuantity(c, id).cart)
  {
    if IsInCart(c, id) {
      var n := GetCartItem(c, id).value.quantity - 1;
      assert DecrementQuantity(c, id) == UpdateQuantity(c, id, n);
      UpdatePreservesValid(c, id, n);
    }
  }

  // ---------------------------------------------------------------------------
  // One line per id, with no further premise

  /** Mapping a rewrite over one id's lines keeps every line's id in place. */
  lemma MapIdKeepsIds(c: Cart, id: int, f: Rewrite)
    ensures forall i :: 0 <= i < |c| ==> MapId(c, id, f)[i].Id() == c[i].Id()
  {
    MapIdPointwise(c, id, f);
  }

  /** Removing an id keeps the remaining lines' ids distinct. */
  lemma RemovePreservesUniqueIds(c: Cart, id: int)
    requires UniqueIds(c)
    ensures UniqueIds(RemoveFromCart(c, id).cart)
  {
    var p := OtherThan(id);
    KeepIsOrderedSubsequence(c, p);
    var r := Keep(c, p);
    var pos := Positions(c, p);
    forall a, b | 0 <= a < b < |r|
      ensures r[a].Id() != r[b].Id()
    {
      assert r[a] == c[pos[a]] && r[b] == c[pos[b]];
      assert pos[a] < pos[b] < |c|;
    }
  }

  /** `updateQuantity` with any quantity keeps one line per id. */
  lemma UpdatePreservesUniqueIds(c: Cart, id: int, n: int)
    requires UniqueIds(c)
    ensures UniqueIds(UpdateQuantity(c, id, n).cart)
  {
    if n < 1 {
      RemovePreservesUniqueIds(c, id);
    } else {
      MapIdKeepsIds(c, id, ReviseQuantity(n));
    }
  }

  /** `addToCart` keeps one line per id for every product and every
      quantity: a known id is merged into, never appended again. */
  lemma AddPreservesUniqueIds(c: Cart, product: Option<Product>, quantity: int, now: string)
    requires UniqueIds(c)
    ensures UniqueIds(AddToCart(c, product, quantity, now).cart)
  {
    if product.Some? && product.value.id != 0 && quantity <= product.value.stock {
      var p := product.value;
      match GetCartItem(c, p.id)
      case Some(e) =>
        MapIdKeepsIds(c, p.id, SetQuantity(e.quantity + quantity));
      case None =>
        var d := c + [Line(p, quantity, now)];
        assert AddToCart(c, product, quantity, now).cart == d;
        assert forall i :: 0 <= i < |c| ==> d[i] == c[i];
    }
  }

  /** Incrementing keeps one line per id. */
  lemma IncrementPreservesUniqueIds(c: Cart, id: int)
    requires UniqueIds(c)
    ensures UniqueIds(IncrementQuantity(c, id).cart)
  {
    if IsInCart(c, id) {
      var n := GetCartItem(c, id).value.quantity + 1;
      assert IncrementQuantity(c, id) == UpdateQuantity(c, id, n);
      UpdatePreservesUniqueIds(c, id, n);
    }
  }

  /** Decrementing keeps one line per id. */
  lemma DecrementPreservesUniqueIds(c: Cart, id: int)
    requires UniqueIds(c)
    ensures UniqueIds(DecrementQuantity(c, id).cart)
  {
    if IsInCart(c, id) {
      var n := GetCartItem(c, id).value.quantity - 1;
      assert DecrementQuantity(c, id) == UpdateQuantity(c, id, n);
      UpdatePreservesUniqueIds(c, id, n);
    }
  }

  // ---------------------------------------------------------------------------
  // Other lines are untouched

  /** Mapping over the lines of one id, with a map that keeps ids, leaves the
      lines of every other id in place. Holds with or without unique ids. */
  lemma {:induction false} MapIdKeepsOthers(c: Cart, id: int, f: Rewrite)
    ensures OthersUnchanged(c, MapId(c, id, f), id)
  {
    if |c| > 0 {
      MapIdKeepsOthers(c[1..], id, f);
      var m := MapId(c, id, f);
      assert m[1..] == MapId(c[1..], id, f);
    }
  }

  /** Removing an id leaves the lines of every other id, and their order,
      exactly as they were. */
  lemma RemoveKeepsOtherLines(c: Cart, id: int)
    ensures OthersUnchanged(c, RemoveFromCart(c, id).cart, id)
  {
    var other := OtherThan(id);
    var rest := Keep(c, other);
    forall k | 0 <= k < |rest|
      ensures other(rest[k])
    {
      KeepMembers(c, other, rest[k]);
    }
    KeepAll(rest, other);
  }

  /** Updating the quantity of an id, to any value, leaves the lines of every
      other id, and their order, exactly as they were. */
  lemma UpdateKeepsOtherLines(c: Cart, id: int, n: int)
    ensures OthersUnchanged(c, UpdateQuantity(c, id, n).cart, id)
  {
    if n < 1 {
      RemoveKeepsOtherLines(c, id);
    } else {
      MapIdKeepsOthers(c, id, ReviseQuantity(n));
    }
  }

  /** Incrementing an id leaves every other line alone. */
  lemma IncrementKeepsOtherLines(c: Cart, id: int)
    ensures OthersUnchanged(c, IncrementQuantity(c, id).cart, id)
  {
    if IsInCart(c, id) {
      var n := GetCartItem(c, id).value.quantity + 1;
      assert IncrementQuantity(c, id) == UpdateQuantity(c, id, n);
      UpdateKeepsOtherLines(c, id, n);
    }
  }

  /** Decrementing an id leaves every other line alone. */
  lemma DecrementKeepsOtherLines(c: Cart, id: int)
    ensures OthersUnchanged(c, DecrementQuantity(c, id).cart, id)
  {
    if IsInCart(c, id) {
      var n := GetCartItem(c, id).value.quantity - 1;
      assert DecrementQuantity(c, id) == UpdateQuantity(c, id, n);
      UpdateKeepsOtherLines(c, id, n);
    }
  }

  /** Adding a product, whatever the outcome, leaves the lines of every other
      id, and their order, exactly as they were. */
  lemma AddKeepsOtherLines(c: Cart, p: Product, quantity: int, now: string)
    ensures OthersUnchanged(c, AddToCart(c, Some(p), quantity, now).cart, p.id)
  {
    if p.id != 0 && quantity <= p.stock {
      match GetCartItem(c, p.id)
      case Some(e) =>
        MapIdKeepsOthers(c, p.id, SetQuantity(e.quantity + quantity));
      case None =>
        KeepConcat(c, [Line(p, quantity, now)], OtherThan(p.id));
    }
  }
}
