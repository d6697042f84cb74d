/** The cart state machine of `useCart`: an ordered sequence of cart lines and
    the pure `prevCart -> newCart` transitions the hook hands to `setCart`.

    Each transition returns a `Step`: the new cart together with an advisory
    `Notice`, the outcome the hook reports through a toast notification. The
    notice is never needed to decide the new cart. */
module Cart {
  import opened Products
  import opened Seqs

  /** A cart line: a snapshot of the product taken when it was first added,
      the quantity in the cart, and the creation timestamp (an ISO string in
      the source, opaque here). The id, price and stock of a line are read from
      its snapshot, never from the live catalog. */
  datatype Line = Line(item: Product, quantity: int, addedAt: string)
  {
    function Id(): int { item.id }
    function Stock(): int { item.stock }
  }

  type Cart = seq<Line>

  /** The outcome the hook reports for a transition. `Silent` means no
      notification is shown. */
  datatype Notice =
    | Silent
    | Added
    | Updated
    | Removed
    | Cleared
    | InvalidProduct
    | InsufficientStock
    | StockLimit
  {
    predicate IsRejection() {
      this == InvalidProduct || this == InsufficientStock || this == StockLimit
    }
  }

  datatype Step = Step(cart: Cart, notice: Notice)

  // ---------------------------------------------------------------------------
  // Observers

  /** `isInCart`: some line carries the id. */
  function IsInCart(c: Cart, id: int): (b: bool)
    ensures b <==> exists i :: 0 <= i < |c| && c[i].Id() == id
  {
    if |c| == 0 then false else c[0].Id() == id || IsInCart(c[1..], id)
  }

  /** The index of the first line carrying the id, or `|c|` when none does. */
  function FirstIndex(c: Cart, id: int): (k: nat)
    ensures k <= |c|
    ensures k < |c| ==> c[k].Id() == id
    ensures forall j :: 0 <= j < k ==> c[j].Id() != id
  {
    if |c| == 0 then 0
    else if c[0].Id() == id then 0
    else 1 + FirstIndex(c[1..], id)
  }

  /** `getCartItem`: the first line carrying the id (JavaScript's `find`). */
  function GetCartItem(c: Cart, id: int): (r: Option<Line>)
    ensures r.Some? <==> IsInCart(c, id)
    ensures r.Some? ==> r.value in c && r.value.Id() == id
    ensures r.Some? ==> FirstIndex(c, id) < |c| && r.value == c[FirstIndex(c, id)]
  {
    var k := FirstIndex(c, id);
    if k < |c| then Some(c[k]) else None
  }

  // ---------------------------------------------------------------------------
  // Invariants

  /** At most one line per product id. */
  ghost predicate UniqueIds(c: Cart)
  {
    forall i, j :: 0 <= i < j < |c| ==> c[i].Id() != c[j].Id()
  }

  /** Every quantity lies between 1 and the stock recorded in its line. */
  ghost predicate QuantitiesInStock(c: Cart)
  {
    forall i :: 0 <= i < |c| ==> 1 <= c[i].quantity <= c[i].Stock()
  }

  ghost predicate Valid(c: Cart)
  {
    UniqueIds(c) && QuantitiesInStock(c)
  }

  /** Lines carrying an id other than `id`. */
  function OtherThan(id: int): Line -> bool
  {
    (l: Line) => l.Id() != id
  }

  /** The lines of ids other than `id`, in order, agree in `c` and `d`: a
      transition on `id` left every other line and their order alone. */
  ghost predicate OthersUnchanged(c: Cart, d: Cart, id: int)
  {
    Keep(c, OtherThan(id)) == Keep(d, OtherThan(id))
  }

  // ---------------------------------------------------------------------------
  // Transitions

  /** The per-line rewrites the transitions map over the lines of one id:
      `addToCart` sets the merged quantity; `updateQuantity` sets a quantity
      unless it exceeds the line's own recorded stock, which keeps the line. */
  datatype Rewrite = SetQuantity(n: int) | ReviseQuantity(n: int)
  {
    function Apply(l: Line): (m: Line)
      ensures m.item == l.item && m.addedAt == l.addedAt
    {
      match this
      case SetQuantity(n) => l.(quantity := n)
      case ReviseQuantity(n) => if n > l.Stock() then l else l.(quantity := n)
    }
  }

  /** JavaScript's `cart.map(item => item.id === id ? f(item) : item)`. */
  function MapId(c: Cart, id: int, f: Rewrite): (r: Cart)
    ensures |r| == |c|
  {
    if |c| == 0 then []
    else [if c[0].Id() == id then f.Apply(c[0]) else c[0]] + MapId(c[1..], id, f)
  }

  /** `MapId` rewrites exactly the lines of the id, each in its place. */
  lemma {:induction false} MapIdPointwise(c: Cart, id: int, f: Rewrite)
    ensures forall i :: 0 <= i < |c| ==>
      MapId(c, id, f)[i] == if c[i].Id() == id then f.Apply(c[i]) else c[i]
  {
    if |c| > 0 {
      MapIdPointwise(c[1..], id, f);
      var r := MapId(c, id, f);
      assert r[1..] == MapId(c[1..], id, f);
      forall i | 1 <= i < |c|
        ensures r[i] == if c[i].Id() == id then f.Apply(c[i]) else c[i]
      {
        assert r[i] == MapId(c[1..], id, f)[i - 1] && c[1..][i - 1] == c[i];
      }
    }
  }

  /** `addToCart(product, quantity)`. A missing product or one whose id is
      falsy (0) is refused; so is a quantity above the product's stock. An id
      already in the cart has every line of that id set to the first line's
      quantity plus `quantity`, unless that sum exceeds the product's stock,
      in which case the whole request is refused. A new id is appended as a fresh line stamped `now`. */
  function AddToCart(c: Cart, product: Option<Product>, quantity: int, now: string): (r: Step)
    ensures r.notice.IsRejection() ==> r.cart == c
    ensures r.notice == InvalidProduct <==> product.None? || product.value.id == 0
    ensures r.notice == Added ==>
      product.Some? && !IsInCart(c, product.value.id) && r.cart == c + [Line(product.value, quantity, now)]
    ensures r.notice == Updated ==>
      product.Some? && IsInCart(c, product.value.id) && |r.cart| == |c|
    ensures r.notice in {Added, Updated, InvalidProduct, InsufficientStock, StockLimit}
  {
    match product
    case None => Step(c, InvalidProduct)
    case Some(p) =>
      if p.id == 0 then Step(c, InvalidProduct)
      else if p.stock < quantity then Step(c, InsufficientStock)
      else
        match GetCartItem(c, p.id)
        case Some(existing) =>
          var n := existing.quantity + quantity;
          if n > p.stock then Step(c, StockLimit)
          else Step(MapId(c, p.id, SetQuantity(n)), Updated)
        case None =>
          Step(c + [Line(p, quantity, now)], Added)
  }

  /** `removeFromCart(id)`: every line of the id goes, the rest keep their
      order. A notification is shown only when a line was removed. */
  function RemoveFromCart(c: Cart, id: int): (r: Step)
    ensures !IsInCart(r.cart, id)
    ensures forall i :: 0 <= i < |r.cart| ==> r.cart[i] in c
    ensures r.notice == Removed <==> IsInCart(c, id)
    ensures r.notice == Silent <==> !IsInCart(c, id)
    ensures !IsInCart(c, id) ==> r.cart == c
  {
    var rest := Keep(c, OtherThan(id));
    assert !IsInCart(c, id) ==> rest == c by {
      if !IsInCart(c, id) {
        KeepAll(c, OtherThan(id));
      }
    }
    forall k | 0 <= k < |rest|
      ensures rest[k] in c && rest[k].Id() != id
    {
      KeepMembers(c, OtherThan(id), rest[k]);
    }
    Step(rest, if IsInCart(c, id) then Removed else Silent)
  }

  /** Some line of the id holds less stock than `n`. */
  predicate ExceedsStock(c: Cart, id: int, n: int)
  {
    exists i :: 0 <= i < |c| && c[i].Id() == id && n > c[i].Stock()
  }

  /** `updateQuantity(id, n)`: below 1 it is `removeFromCart(id)`; otherwise
      each line of the id takes quantity `n` unless `n` exceeds that line's
      own recorded stock, which leaves the line unchanged with a warning. */
  function UpdateQuantity(c: Cart, id: int, n: int): (r: Step)
    ensures |r.cart| <= |c|
    ensures n >= 1 ==> |r.cart| == |c|
    ensures !IsInCart(c, id) ==> r.cart == c
  {
    if n < 1 then RemoveFromCart(c, id)
    else
      var d := MapId(c, id, ReviseQuantity(n));
      assert !IsInCart(c, id) ==> d == c by {
        MapIdPointwise(c, id, ReviseQuantity(n));
      }
      Step(d, if ExceedsStock(c, id, n) then StockLimit else Silent)
  }

  /** `incrementQuantity(id)`: `updateQuantity(id, quantity + 1)` for the
      line found by `getCartItem`, nothing when the id is absent. */
  function IncrementQuantity(c: Cart, id: int): (r: Step)
    ensures !IsInCart(c, id) ==> r == Step(c, Silent)
  {
    match GetCartItem(c, id)
    case None => Step(c, Silent)
    case Some(l) => UpdateQuantity(c, id, l.quantity + 1)
  }

  /** `decrementQuantity(id)`: `updateQuantity(id, quantity - 1)` for the
      line found by `getCartItem`, nothing when the id is absent. */
  function DecrementQuantity(c: Cart, id: int): (r: Step)
    ensures !IsInCart(c, id) ==> r == Step(c, Silent)
    ensures |r.cart| <= |c|
  {
    match GetCartItem(c, id)
    case None => Step(c, Silent)
    case Some(l) => UpdateQuantity(c, id, l.quantity - 1)
  }

  /** `clearCart()`: the empty cart. */
  function ClearCart(c: Cart): (r: Step)
    ensures r.cart == [] && r.notice == Cleared
  {
    Step([], Cleared)
  }
}
