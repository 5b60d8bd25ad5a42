/** The quantity controls of one rendered cart line: the minus and plus
    buttons and the remove button, each turned into the cart action it
    dispatches. */
module CartItem {
  import opened Cart

  /** `handleQuantityChange(newQuantity)`: a quantity of zero or less asks
      for removal, anything else for an update to that quantity. */
  function QuantityChange(item: CartLine, newQuantity: int): (a: CartAction)
    ensures newQuantity <= 0 <==> a == Remove(item.productId)
    ensures newQuantity > 0 <==> a == SetQuantity(item.productId, newQuantity)
  {
    if newQuantity <= 0 then Remove(item.productId)
    else SetQuantity(item.productId, newQuantity)
  }

  /** The minus button. */
  function Decrement(item: CartLine): (a: CartAction)
    ensures item.quantity <= 1 ==> a == Remove(item.productId)
    ensures item.quantity > 1 ==> a == SetQuantity(item.productId, item.quantity - 1)
  {
    QuantityChange(item, item.quantity - 1)
  }

  /** The plus button. */
  function Increment(item: CartLine): (a: CartAction)
    ensures item.quantity >= 0 ==> a == SetQuantity(item.productId, item.quantity + 1)
  {
    QuantityChange(item, item.quantity + 1)
  }

  /** `handleRemove`: the remove button always removes this line's product. */
  function RemoveButton(item: CartLine): (a: CartAction)
    ensures a.Remove? && a.productId == item.productId
  {
    Remove(item.productId)
  }

  /** Choosing between remove and update in the control gives the same cart
      as handing the requested quantity straight to `updateQuantity`, which
      itself removes a line whose quantity drops to zero or below. */
  lemma ControlAgreesWithUpdateQuantity(c: Cart, i: int, newQuantity: int)
    requires 0 <= i < |c.items|
    ensures Reduce(c, QuantityChange(c.items[i], newQuantity))
         == UpdateQuantity(c, c.items[i].productId, newQuantity)
  {
    assert HasLine(c.items, c.items[i].productId);
  }

  /** Pressing minus on a line of quantity 1 removes the line: one line
      fewer, no line left for that product, and one item and that line's
      subtotal fewer in the aggregates. */
  lemma DecrementingSingleItemRemovesLine(c: Cart, i: int)
    requires WellFormed(c) && 0 <= i < |c.items| && c.items[i].quantity == 1
    ensures var r := Reduce(c, Decrement(c.items[i]));
            |r.items| == |c.items| - 1 &&
            !HasLine(r.items, c.items[i].productId) &&
            r.itemCount == c.itemCount - 1 &&
            r.total == c.total - c.items[i].subtotal
  {
    RemovePresentMovesAggregates(c, i);
  }

  /** Pressing plus adds one item, in place, priced from the line's snapshot. */
  lemma IncrementingAddsOneItem(c: Cart, i: int)
    requires WellFormed(c) && 0 <= i < |c.items|
    ensures var r := Reduce(c, Increment(c.items[i]));
            |r.items| == |c.items| &&
            r.items[i].quantity == c.items[i].quantity + 1 &&
            r.items[i].subtotal == Cost(c.items[i].product.price, c.items[i].quantity + 1) &&
            r.itemCount == c.itemCount + 1
  {
    assert FirstLine(c.items, c.items[i].productId, i);
    SetQuantityMovesAggregates(c, i, c.items[i].quantity + 1);
  }
}
