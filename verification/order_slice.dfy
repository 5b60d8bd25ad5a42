/** The order slice: the checkout's view of order placement — a `loading`
    flag, the last error, the current (just created) order, and the list of
    orders created in this session — changed by four reducers. */
module OrderSlice {
  import opened Results
  import opened OrderService

  datatype OrderState = OrderState(
    orders: seq<Order>, currentOrder: Option<Order>, loading: bool, error: Option<string>)

  const Initial: OrderState := OrderState([], None, false, None)

  datatype OrderAction =
    | Start
    | Success(order: Order)
    | Failure(message: string)
    | ClearCurrent

  /** `createOrderStart`: loading, and the previous error forgotten. It does
      not look at `loading`: a second start while one is in flight is accepted. */
  function CreateOrderStart(s: OrderState): (r: OrderState)
    ensures r.loading && r.error.None?
    ensures r.orders == s.orders && r.currentOrder == s.currentOrder
  {
    s.(loading := true, error := None)
  }

  /** `createOrderSuccess(order)`: no longer loading; the order becomes
      current and is appended to the session's orders; the error is kept. */
  function CreateOrderSuccess(s: OrderState, order: Order): (r: OrderState)
    ensures !r.loading && r.currentOrder == Some(order)
    ensures |r.orders| == |s.orders| + 1 && r.orders[..|s.orders|] == s.orders
    ensures r.orders[|s.orders|] == order
    ensures r.error == s.error
  {
    s.(loading := false, currentOrder := Some(order), orders := s.orders + [order])
  }

  /** `createOrderError(message)`: no longer loading, the message recorded;
      the orders and the current order are kept. */
  function CreateOrderError(s: OrderState, message: string): (r: OrderState)
    ensures !r.loading && r.error == Some(message)
    ensures r.orders == s.orders && r.currentOrder == s.currentOrder
  {
    s.(loading := false, error := Some(message))
  }

  /** `clearCurrentOrder`: only the current order is dropped. */
  function ClearCurrentOrder(s: OrderState): (r: OrderState)
    ensures r.currentOrder.None?
    ensures r.orders == s.orders && r.loading == s.loading && r.error == s.error
  {
    s.(currentOrder := None)
  }

  function Reduce(s: OrderState, a: OrderAction): OrderState {
    match a
    case Start => CreateOrderStart(s)
    case Success(o) => CreateOrderSuccess(s, o)
    case Failure(m) => CreateOrderError(s, m)
    case ClearCurrent => ClearCurrentOrder(s)
  }

  function ReduceAll(s: OrderState, actions: seq<OrderAction>): OrderState
    decreases |actions|
  {
    if |actions| == 0 then s else ReduceAll(Reduce(s, actions[0]), actions[1..])
  }

  /** The orders carried by the success actions, in dispatch order. */
  function Created(actions: seq<OrderAction>): seq<Order>
    decreases |actions|
  {
    if |actions| == 0 then []
    else (if actions[0].Success? then [actions[0].order] else []) + Created(actions[1..])
  }

  /** The order list only grows, and it grows by exactly the orders of the
      success actions, in order: no other action adds, drops or changes an order. */
  lemma {:induction false} OrdersGrowOnlyOnSuccess(s: OrderState, actions: seq<OrderAction>)
    ensures ReduceAll(s, actions).orders == s.orders + Created(actions)
    decreases |actions|
  {
    if |actions| == 0 {
      assert s.orders + [] == s.orders;
    } else {
      var next := Reduce(s, actions[0]);
      var head := if actions[0].Success? then [actions[0].order] else [];
      OrdersGrowOnlyOnSuccess(next, actions[1..]);
      assert next.orders == s.orders + head;
      assert Created(actions) == head + Created(actions[1..]);
      assert (s.orders + head) + Created(actions[1..]) == s.orders + (head + Created(actions[1..]));
    }
  }

  /** The reducer itself does not enforce one order in flight: two starts
      followed by two successes record two orders. Only the disabled
      "Place Order" button keeps a second submission out. */
  lemma ReducerAcceptsOverlappingSubmissions(s: OrderState, a: Order, b: Order)
    ensures var r := ReduceAll(s, [Start, Start, Success(a), Success(b)]);
            r.orders == s.orders + [a, b] && r.currentOrder == Some(b) && !r.loading
  {
    var s1 := Reduce(s, Start);
    var s2 := Reduce(s1, Start);
    var s3 := Reduce(s2, Success(a));
    var s4 := Reduce(s3, Success(b));
    assert s4.orders == s.orders + [a, b];
    var acts := [Start, Start, Success(a), Success(b)];
    assert acts[1..] == [Start, Success(a), Success(b)];
    assert acts[1..][1..] == [Success(a), Success(b)];
    assert acts[1..][1..][1..] == [Success(b)];
    assert acts[1..][1..][1..][1..] == [];
    calc {
      ReduceAll(s, acts);
      ReduceAll(s1, [Start, Success(a), Success(b)]);
      ReduceAll(s2, [Success(a), Success(b)]);
      ReduceAll(s3, [Success(b)]);
      ReduceAll(s4, []);
    }
  }
}
