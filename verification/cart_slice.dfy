/** The cart slice: an ordered list of cart lines with two derived
    aggregates, `total` and `itemCount`, changed only by the four reducers
    `addToCart`, `removeFromCart`, `updateQuantity` and `clearCart`.
    Redux Toolkit's in-place "mutations" are modelled as pure functions from
    the state before an action to the state after it. */
module Cart {
  import opened Results
  import Lists
  import opened Products

  /** One product-quantity pairing, holding a snapshot of the product taken
      when the line was created. */
  datatype CartLine = CartLine(productId: int, product: Product, quantity: int, subtotal: real)

  datatype Cart = Cart(items: seq<CartLine>, total: real, itemCount: int)

  /** The slice's initial state (and the state `clearCart` returns to). */
  const Empty: Cart := Cart([], 0.0, 0)

  /** A line's subtotal: unit price times quantity. Both orders in which
      the source multiplies (`price * quantity`, `quantity * price`) agree. */
  function Cost(price: real, quantity: int): real {
    price * quantity as real
  }

  // ---------------------------------------------------------------------
  // Aggregates: `items.reduce((sum, item) => sum + item.subtotal, 0)` and the
  // same over quantities, folded from the left as `reduce` does.

  function TotalOf(items: seq<CartLine>): real {
    if |items| == 0 then 0.0 else TotalOf(items[..|items| - 1]) + items[|items| - 1].subtotal
  }

  function CountOf(items: seq<CartLine>): int {
    if |items| == 0 then 0 else CountOf(items[..|items| - 1]) + items[|items| - 1].quantity
  }

  /** The stored aggregates agree with the lines. */
  ghost predicate Consistent(c: Cart) {
    c.total == TotalOf(c.items) && c.itemCount == CountOf(c.items)
  }

  /** No two lines share a productId. */
  ghost predicate UniqueIds(items: seq<CartLine>) {
    forall i, j :: 0 <= i < j < |items| ==> items[i].productId != items[j].productId
  }

  ghost predicate PositiveQuantities(items: seq<CartLine>) {
    forall i :: 0 <= i < |items| ==> items[i].quantity > 0
  }

  /** The invariant every reachable cart keeps. */
  ghost predicate WellFormed(c: Cart) {
    Consistent(c) && UniqueIds(c.items) && PositiveQuantities(c.items)
  }

  /** Every line is priced from its own product snapshot. This holds only
      while the prices handed to `addToCart` agree with the stored snapshots. */
  ghost predicate PricedBySnapshot(items: seq<CartLine>) {
    forall i :: 0 <= i < |items| ==> items[i].subtotal == Cost(items[i].product.price, items[i].quantity)
  }

  /** `i` is the line `items.find(item => item.productId === id)` returns. */
  ghost predicate FirstLine(items: seq<CartLine>, id: int, i: int) {
    0 <= i < |items| && items[i].productId == id &&
    forall j :: 0 <= j < i ==> items[j].productId != id
  }

  /** There is only one first line. */
  lemma FirstLineUnique(items: seq<CartLine>, id: int, i: int)
    requires FirstLine(items, id, i)
    ensures forall k :: FirstLine(items, id, k) ==> k == i
  {
  }

  /** `items.find(...)`, located through `findIndex`. */
  function FindLine(items: seq<CartLine>, id: int): (r: Option<nat>)
    ensures r.Some? ==> FirstLine(items, id, r.value)
    ensures r.Some? ==> forall k :: FirstLine(items, id, k) ==> k == r.value
    ensures r.None? <==> !HasLine(items, id)
  {
    var r := Lists.FindIndex(items, LineFor(id));
    if r.Some? then
      FirstLineUnique(items, id, r.value);
      r
    else
      r
  }

  /** Some line of the cart is for product `id`. */
  ghost predicate HasLine(items: seq<CartLine>, id: int) {
    exists i :: 0 <= i < |items| && items[i].productId == id
  }

  /** The test `item.productId === id`. */
  function LineFor(id: int): CartLine -> bool {
    (line: CartLine) => line.productId == id
  }

  function OtherThan(id: int): CartLine -> bool {
    (line: CartLine) => line.productId != id
  }

  /** The new lines with both aggregates recomputed from them. */
  function Recompute(items: seq<CartLine>): (c: Cart)
    ensures c.items == items && Consistent(c)
  {
    Cart(items, TotalOf(items), CountOf(items))
  }

  // ---------------------------------------------------------------------
  // The four reducers.

  /** `addToCart({ product, quantity = 1 })`: an existing line for the
      product is incremented in place and re-priced with the INCOMING
      product's price (its snapshot is kept); otherwise a new line is
      appended at the end. */
  function AddToCart(c: Cart, product: Product, quantity: Option<int>): (r: Cart)
    ensures Consistent(r)
    ensures !HasLine(c.items, product.Id) ==>
              |r.items| == |c.items| + 1 && r.items[..|c.items|] == c.items &&
              r.items[|c.items|] == CartLine(product.Id, product, quantity.GetOr(1),
                                             Cost(product.price, quantity.GetOr(1)))
    ensures forall i :: FirstLine(c.items, product.Id, i) ==>
              r.items == c.items[i := CartLine(product.Id, c.items[i].product,
                                               c.items[i].quantity + quantity.GetOr(1),
                                               Cost(product.price, c.items[i].quantity + quantity.GetOr(1)))]
  {
    var q := quantity.GetOr(1);
    match FindLine(c.items, product.Id)
    case Some(i) =>
      var r := Bump(c, i, product.price, q);
      assert c.items[i].productId == product.Id;
      assert forall k :: FirstLine(c.items, product.Id, k) ==> k == i;
      assert r.items == c.items[i := CartLine(product.Id, c.items[i].product,
                                              c.items[i].quantity + quantity.GetOr(1),
                                              Cost(product.price, c.items[i].quantity + quantity.GetOr(1)))];
      r
    case None =>
      assert forall k :: !FirstLine(c.items, product.Id, k);
      Recompute(c.items + [CartLine(product.Id, product, q, Cost(product.price, q))])
  }

  /** Line `i` with `q` more items, re-priced at `price`; aggregates recomputed. */
  function Bump(c: Cart, i: int, price: real, q: int): (r: Cart)
    requires 0 <= i < |c.items|
    ensures Consistent(r)
    ensures r.items == c.items[i := CartLine(c.items[i].productId, c.items[i].product,
                                             c.items[i].quantity + q, Cost(price, c.items[i].quantity + q))]
  {
    var line := c.items[i];
    Recompute(c.items[i := line.(quantity := line.quantity + q, subtotal := Cost(price, line.quantity + q))])
  }

  /** `removeFromCart(productId)`: every line with that id is dropped, the
      others keep their order. */
  function RemoveFromCart(c: Cart, productId: int): (r: Cart)
    ensures Consistent(r)
    ensures forall j :: 0 <= j < |r.items| ==> r.items[j].productId != productId && r.items[j] in c.items
    ensures forall j :: 0 <= j < |c.items| && c.items[j].productId != productId ==> c.items[j] in r.items
    ensures !HasLine(c.items, productId) ==> r.items == c.items
  {
    FilterWithoutMatch(c.items, productId);
    Lists.FilterMembers(c.items, OtherThan(productId));
    Recompute(Lists.Filter(c.items, OtherThan(productId)))
  }

  /** `updateQuantity({ productId, quantity })`: an absent id leaves the
      whole state untouched (aggregates included); a non-positive quantity
      removes the line; otherwise the line's quantity is set and it is
      re-priced with its STORED snapshot's price. */
  function UpdateQuantity(c: Cart, productId: int, quantity: int): (r: Cart)
    ensures !HasLine(c.items, productId) ==> r == c
    ensures HasLine(c.items, productId) && quantity <= 0 ==> r == RemoveFromCart(c, productId)
    ensures HasLine(c.items, productId) ==> Consistent(r)
    ensures forall i :: FirstLine(c.items, productId, i) && quantity > 0 ==>
              r.items == c.items[i := CartLine(productId, c.items[i].product, quantity,
                                               Cost(c.items[i].product.price, quantity))]
  {
    match FindLine(c.items, productId)
    case None => c
    case Some(i) =>
      assert FirstLine(c.items, productId, i);
      if quantity <= 0 then
        Recompute(Lists.Filter(c.items, OtherThan(productId)))
      else
        var line := c.items[i];
        var updated := line.(quantity := quantity, subtotal := Cost(line.product.price, quantity));
        assert updated == CartLine(productId, line.product, quantity, Cost(line.product.price, quantity));
        Recompute(c.items[i := updated])
  }

  /** `clearCart`: back to the initial state, whatever the state before. */
  function ClearCart(c: Cart): (r: Cart)
    ensures r.items == [] && r.total == 0.0 && r.itemCount == 0
    ensures WellFormed(r)
  {
    Empty
  }

  // ---------------------------------------------------------------------
  // Actions and the reducer.

  datatype CartAction =
    | Add(product: Product, quantity: Option<int>)
    | Remove(productId: int)
    | SetQuantity(productId: int, newQuantity: int)
    | Clear

  function Reduce(c: Cart, a: CartAction): Cart {
    match a
    case Add(p, q) => AddToCart(c, p, q)
    case Remove(id) => RemoveFromCart(c, id)
    case SetQuantity(id, q) => UpdateQuantity(c, id, q)
    case Clear => ClearCart(c)
  }

  function ReduceAll(c: Cart, actions: seq<CartAction>): Cart
    decreases |actions|
  {
    if |actions| == 0 then c else ReduceAll(Reduce(c, actions[0]), actions[1..])
  }

  /** The actions the storefront's callers can dispatch: `addToCart` always
      receives a quantity of at least 1 (a product card sends 1, the detail
      page clamps to 1 or more). */
  ghost predicate Admissible(a: CartAction) {
    a.Add? ==> a.quantity.GetOr(1) >= 1
  }

  // ---------------------------------------------------------------------
  // Sums over split sequences.

  lemma {:induction false} SumsConcat(a: seq<CartLine>, b: seq<CartLine>)
    ensures TotalOf(a + b) == TotalOf(a) + TotalOf(b)
    ensures CountOf(a + b) == CountOf(a) + CountOf(b)
    decreases |b|
  {
    if |b| == 0 {
      assert a + b == a;
    } else {
      var front := b[..|b| - 1];
      assert (a + b)[..|a + b| - 1] == a + front;
      SumsConcat(a, front);
    }
  }

  /** The sums over `items` split around position `i`. */
  lemma SumsAround(items: seq<CartLine>, i: int)
    requires 0 <= i < |items|
    ensures TotalOf(items) == TotalOf(items[..i]) + items[i].subtotal + TotalOf(items[i + 1..])
    ensures CountOf(items) == CountOf(items[..i]) + items[i].quantity + CountOf(items[i + 1..])
  {
    assert items == items[..i] + [items[i]] + items[i + 1..];
    SumsConcat(items[..i] + [items[i]], items[i + 1..]);
    SumsConcat(items[..i], [items[i]]);
    assert [items[i]][..0] == [];
  }

  /** Replacing one line changes the sums by exactly that line's difference. */
  lemma SumsReplace(items: seq<CartLine>, i: int, line: CartLine)
    requires 0 <= i < |items|
    ensures TotalOf(items[i := line]) == TotalOf(items) - items[i].subtotal + line.subtotal
    ensures CountOf(items[i := line]) == CountOf(items) - items[i].quantity + line.quantity
  {
    var after := items[i := line];
    SumsAround(items, i);
    SumsAround(after, i);
    assert after[..i] == items[..i];
    assert after[i + 1..] == items[i + 1..];
  }

  lemma FilterWithoutMatch(items: seq<CartLine>, productId: int)
    ensures !HasLine(items, productId) ==> Lists.Filter(items, OtherThan(productId)) == items
  {
    if !HasLine(items, productId) {
      Lists.FilterKeepsAll(items, OtherThan(productId));
    }
  }

  /** With unique ids, removing an id that is present removes exactly its line. */
  lemma FilterRemovesOneLine(items: seq<CartLine>, i: int)
    requires UniqueIds(items) && 0 <= i < |items|
    ensures Lists.Filter(items, OtherThan(items[i].productId)) == items[..i] + items[i + 1..]
  {
    var p := OtherThan(items[i].productId);
    forall j | 0 <= j < |items| && j != i ensures p(items[j]) {
      assert items[j].productId != items[i].productId;
    }
    Lists.FilterDropsOne(items, i, p);
  }

  // ---------------------------------------------------------------------
  // How each reducer moves the aggregates, from a consistent cart.

  /** Adding a product not yet in the cart adds `price × quantity` to the
      total and `quantity` to the item count, and one line. */
  lemma AddNewMovesAggregates(c: Cart, product: Product, quantity: Option<int>)
    requires Consistent(c) && !HasLine(c.items, product.Id)
    ensures var r := AddToCart(c, product, quantity);
            var q := quantity.GetOr(1);
            |r.items| == |c.items| + 1 &&
            r.total == c.total + Cost(product.price, q) &&
            r.itemCount == c.itemCount + q
  {
    var q := quantity.GetOr(1);
    var line := CartLine(product.Id, product, q, Cost(product.price, q));
    SumsConcat(c.items, [line]);
    assert [line][..0] == [];
  }

  /** Adding to an existing line adds `quantity` to the item count, keeps
      the number of lines, and replaces that line's subtotal in the total. */
  lemma AddExistingMovesAggregates(c: Cart, product: Product, quantity: Option<int>, i: int)
    requires Consistent(c) && FirstLine(c.items, product.Id, i)
    ensures var r := AddToCart(c, product, quantity);
            |r.items| == |c.items| &&
            r.itemCount == c.itemCount + quantity.GetOr(1) &&
            r.total == c.total - c.items[i].subtotal + r.items[i].subtotal
  {
    var r := AddToCart(c, product, quantity);
    assert r.items == c.items[i := r.items[i]];
    SumsReplace(c.items, i, r.items[i]);
  }

  /** Removing a product that is present subtracts exactly its line. */
  lemma RemovePresentMovesAggregates(c: Cart, i: int)
    requires WellFormed(c) && 0 <= i < |c.items|
    ensures var r := RemoveFromCart(c, c.items[i].productId);
            r.items == c.items[..i] + c.items[i + 1..] &&
            |r.items| == |c.items| - 1 &&
            r.total == c.total - c.items[i].subtotal &&
            r.itemCount == c.itemCount - c.items[i].quantity
  {
    FilterRemovesOneLine(c.items, i);
    SumsAround(c.items, i);
    SumsConcat(c.items[..i], c.items[i + 1..]);
  }

  /** Removing an absent product changes nothing at all. */
  lemma RemoveAbsentIsNoOp(c: Cart, productId: int)
    requires Consistent(c) && !HasLine(c.items, productId)
    ensures RemoveFromCart(c, productId) == c
  {
  }

  /** Setting a positive quantity moves the item count by the difference. */
  lemma SetQuantityMovesAggregates(c: Cart, i: int, quantity: int)
    requires Consistent(c) && 0 <= i < |c.items| && FirstLine(c.items, c.items[i].productId, i) && quantity > 0
    ensures var r := UpdateQuantity(c, c.items[i].productId, quantity);
            r.itemCount == c.itemCount - c.items[i].quantity + quantity &&
            r.total == c.total - c.items[i].subtotal + Cost(c.items[i].product.price, quantity)
  {
    var r := UpdateQuantity(c, c.items[i].productId, quantity);
    assert r.items == c.items[i := r.items[i]];
    SumsReplace(c.items, i, r.items[i]);
  }

  /** Setting the quantity of a present product to zero or less drops its
      line: one line fewer, and its share of the aggregates is gone. */
  lemma SetNonPositiveRemovesLine(c: Cart, i: int, quantity: int)
    requires WellFormed(c) && 0 <= i < |c.items| && quantity <= 0
    ensures var r := UpdateQuantity(c, c.items[i].productId, quantity);
            |r.items| == |c.items| - 1 &&
            !HasLine(r.items, c.items[i].productId) &&
            r.total == c.total - c.items[i].subtotal &&
            r.itemCount == c.itemCount - c.items[i].quantity
  {
    RemovePresentMovesAggregates(c, i);
  }

  // ---------------------------------------------------------------------
  // Invariants kept by every admissible action.

  /** Replacing a line by one with the same id and a positive quantity
      keeps the line invariants. */
  lemma ReplaceLineKeepsLineInvariants(items: seq<CartLine>, i: int, line: CartLine)
    requires UniqueIds(items) && PositiveQuantities(items) && 0 <= i < |items|
    requires line.productId == items[i].productId && line.quantity > 0
    ensures UniqueIds(items[i := line]) && PositiveQuantities(items[i := line])
  {
  }

  /** Appending a line for a new id with a positive quantity keeps the line
      invariants. */
  lemma AppendLineKeepsLineInvariants(items: seq<CartLine>, line: CartLine)
    requires UniqueIds(items) && PositiveQuantities(items)
    requires !HasLine(items, line.productId) && line.quantity > 0
    ensures UniqueIds(items + [line]) && PositiveQuantities(items + [line])
  {
    var r := items + [line];
    forall a, b | 0 <= a < b < |r| ensures r[a].productId != r[b].productId {
      if b == |items| {
        assert r[a] == items[a];
      } else {
        assert r[a] == items[a] && r[b] == items[b];
      }
    }
  }

  lemma AddKeepsWellFormed(c: Cart, product: Product, quantity: Option<int>)
    requires WellFormed(c) && quantity.GetOr(1) >= 1
    ensures WellFormed(AddToCart(c, product, quantity))
  {
    var r := AddToCart(c, product, quantity);
    match FindLine(c.items, product.Id)
    case None =>
      assert r.items == c.items + [r.items[|c.items|]];
      AppendLineKeepsLineInvariants(c.items, r.items[|c.items|]);
    case Some(i) =>
      ReplaceLineKeepsLineInvariants(c.items, i, r.items[i]);
  }

  /** Dropping one line keeps the ids unique and the quantities positive. */
  lemma DropLineKeepsLineInvariants(items: seq<CartLine>, i: int)
    requires UniqueIds(items) && PositiveQuantities(items) && 0 <= i < |items|
    ensures UniqueIds(items[..i] + items[i + 1..]) && PositiveQuantities(items[..i] + items[i + 1..])
  {
    var rest := items[..i] + items[i + 1..];
    assert forall k :: 0 <= k < |rest| ==> rest[k] == items[if k < i then k else k + 1];
  }

  lemma RemoveKeepsWellFormed(c: Cart, productId: int)
    requires WellFormed(c)
    ensures WellFormed(RemoveFromCart(c, productId))
  {
    if HasLine(c.items, productId) {
      var i :| 0 <= i < |c.items| && c.items[i].productId == productId;
      RemovePresentMovesAggregates(c, i);
      DropLineKeepsLineInvariants(c.items, i);
    }
  }

  lemma SetQuantityKeepsWellFormed(c: Cart, productId: int, quantity: int)
    requires WellFormed(c)
    ensures WellFormed(UpdateQuantity(c, productId, quantity))
  {
    match FindLine(c.items, productId)
    case None =>
    case Some(i) =>
      if quantity <= 0 {
        RemoveKeepsWellFormed(c, productId);
      } else {
        ReplaceLineKeepsLineInvariants(c.items, i, UpdateQuantity(c, productId, quantity).items[i]);
      }
  }

  /** Every admissible action keeps the aggregates equal to the sums over
      the lines, the productIds unique and the quantities positive. */
  lemma ReduceKeepsWellFormed(c: Cart, a: CartAction)
    requires WellFormed(c) && Admissible(a)
    ensures WellFormed(Reduce(c, a))
  {
    match a
    case Add(p, q) => AddKeepsWellFormed(c, p, q);
    case Remove(id) => RemoveKeepsWellFormed(c, id);
    case SetQuantity(id, q) => SetQuantityKeepsWellFormed(c, id, q);
    case Clear =>
  }

  /** ...and so does every sequence of them, starting from the initial state. */
  lemma {:induction false} ReduceAllKeepsWellFormed(c: Cart, actions: seq<CartAction>)
    requires WellFormed(c)
    requires forall k :: 0 <= k < |actions| ==> Admissible(actions[k])
    ensures WellFormed(ReduceAll(c, actions))
    decreases |actions|
  {
    if |actions| > 0 {
      ReduceKeepsWellFormed(c, actions[0]);
      ReduceAllKeepsWellFormed(Reduce(c, actions[0]), actions[1..]);
    }
  }

  /** Line prices stay `quantity × snapshot price` as long as every product
      added agrees in price with the snapshot already in the cart. */
  lemma AddKeepsSnapshotPricing(c: Cart, product: Product, quantity: Option<int>)
    requires PricedBySnapshot(c.items)
    requires forall j :: 0 <= j < |c.items| && c.items[j].productId == product.Id ==>
               c.items[j].product.price == product.price
    ensures PricedBySnapshot(AddToCart(c, product, quantity).items)
  {
    var r := AddToCart(c, product, quantity);
    match FindLine(c.items, product.Id)
    case None =>
      forall j | 0 <= j < |r.items|
        ensures r.items[j].subtotal == Cost(r.items[j].product.price, r.items[j].quantity)
      {
        if j < |c.items| {
          assert r.items[j] == c.items[j];
        }
      }
    case Some(i) =>
      assert c.items[i].product.price == product.price;
  }

  lemma SetQuantityKeepsSnapshotPricing(c: Cart, productId: int, quantity: int)
    requires PricedBySnapshot(c.items)
    ensures PricedBySnapshot(UpdateQuantity(c, productId, quantity).items)
  {
    if HasLine(c.items, productId) {
      var f := FindLine(c.items, productId);
      assert FirstLine(c.items, productId, f.value);
    }
  }

  /** When the incoming product's price differs from the stored snapshot,
      `addToCart` leaves a line whose subtotal is not its quantity times its
      own snapshot's price. */
  lemma AddRepricesFromIncomingProduct()
    ensures var stale := Product(7, "Oats", "", "Meals", 2.0);
            var newer := stale.(price := 3.0);
            var c := AddToCart(AddToCart(Empty, stale, None), newer, None);
            c.items == [CartLine(7, stale, 2, 6.0)] && !PricedBySnapshot(c.items)
  {
    var stale := Product(7, "Oats", "", "Meals", 2.0);
    var c1 := AddToCart(Empty, stale, None);
    assert c1.items == [CartLine(7, stale, 1, 2.0)];
    assert FirstLine(c1.items, 7, 0);
  }

  /** Whenever the incoming price differs from the snapshot of the line it
      lands on, that line stops being priced from its snapshot: its
      subtotal uses the incoming price, its snapshot the stored one. */
  lemma AddAtNewPriceBreaksSnapshotPricing(c: Cart, product: Product, quantity: Option<int>, i: int)
    requires FirstLine(c.items, product.Id, i)
    requires c.items[i].quantity + quantity.GetOr(1) != 0
    requires c.items[i].product.price != product.price
    ensures !PricedBySnapshot(AddToCart(c, product, quantity).items)
  {
    var r := AddToCart(c, product, quantity);
    var n := c.items[i].quantity + quantity.GetOr(1);
    assert r.items[i] == CartLine(product.Id, c.items[i].product, n, Cost(product.price, n));
    CostDiffers(product.price, c.items[i].product.price, n);
  }

  /** Two different prices never cost the same for a non-zero quantity. */
  lemma CostDiffers(a: real, b: real, n: int)
    requires a != b && n != 0
    ensures Cost(a, n) != Cost(b, n)
  {
    assert Cost(a, n) - Cost(b, n) == (a - b) * n as real;
  }

  /** Adding a product twice yields one line carrying both quantities. */
  lemma AddTwiceMerges(product: Product, m: int, n: int)
    ensures var c := AddToCart(AddToCart(Empty, product, Some(m)), product, Some(n));
            c.items == [CartLine(product.Id, product, m + n, Cost(product.price, m + n))] &&
            c.itemCount == m + n && c.total == Cost(product.price, m + n)
  {
    var c1 := AddToCart(Empty, product, Some(m));
    assert c1.items == [CartLine(product.Id, product, m, Cost(product.price, m))];
    assert FirstLine(c1.items, product.Id, 0);
    var c := AddToCart(c1, product, Some(n));
    var line := CartLine(product.Id, product, m + n, Cost(product.price, m + n));
    assert c.items == [line];
    assert [line][..0] == [];
    assert CountOf([line]) == CountOf([]) + line.quantity;
    assert TotalOf([line]) == TotalOf([]) + line.subtotal;
  }
}
