/** The order entity and the order service: CRUD calls over an in-memory
    array of orders keyed by `Id`. The service stamps `createdAt` and
    `updatedAt` from the clock; each clock reading is a parameter here. */
module OrderService {
  import opened Results
  import Repository
  import opened Products

  /** One ordered product: a copy of a cart line at submission time. */
  datatype OrderItem = OrderItem(productId: int, product: Product, quantity: int, subtotal: real)

  datatype DeliveryInfo = DeliveryInfo(
    name: string, email: string, phone: string, address: string, city: string, zipCode: string)

  /** The two payment methods the checkout form offers (`'card'` and `'cash'`). */
  datatype PaymentMethod = Card | Cash

  /** What is kept of the payment: the method (the `method` field) and, for a card, at most its
      last four characters. */
  datatype PaymentInfo = PaymentInfo(paymentMethod: PaymentMethod, cardNumber: Option<string>)

  /** The object the checkout hands to `create`. */
  datatype OrderPayload = OrderPayload(
    items: seq<OrderItem>, deliveryInfo: DeliveryInfo, paymentInfo: PaymentInfo,
    subtotal: real, tax: real, deliveryFee: real, total: real, status: string)

  /** A stored order: the payload's fields plus the id and the timestamps. */
  datatype Order = Order(
    Id: int, items: seq<OrderItem>, deliveryInfo: DeliveryInfo, paymentInfo: PaymentInfo,
    subtotal: real, tax: real, deliveryFee: real, total: real, status: string,
    createdAt: string, updatedAt: string)

  /** The object handed to `update`: each present field overrides the stored one. */
  datatype OrderPatch = OrderPatch(
    Id: Option<int>, items: Option<seq<OrderItem>>, deliveryInfo: Option<DeliveryInfo>,
    paymentInfo: Option<PaymentInfo>, subtotal: Option<real>, tax: Option<real>,
    deliveryFee: Option<real>, total: Option<real>, status: Option<string>,
    createdAt: Option<string>)

  const NotFound := "Order not found"

  function KeyOf(o: Order): int { o.Id }

  /** The payload's fields as they are stored. */
  predicate Carries(o: Order, p: OrderPayload) {
    o.items == p.items && o.deliveryInfo == p.deliveryInfo && o.paymentInfo == p.paymentInfo &&
    o.subtotal == p.subtotal && o.tax == p.tax && o.deliveryFee == p.deliveryFee &&
    o.total == p.total && o.status == p.status
  }

  /** `{ ...order, Id, createdAt, updatedAt }`, each timestamp its own clock reading. */
  function Stamp(createdAt: string, updatedAt: string): (OrderPayload, int) -> Order {
    (p: OrderPayload, id: int) =>
      Order(id, p.items, p.deliveryInfo, p.paymentInfo, p.subtotal, p.tax, p.deliveryFee,
            p.total, p.status, createdAt, updatedAt)
  }

  /** `{ ...order, ...data, updatedAt: now }`. */
  function MergeAt(now: string): (Order, OrderPatch) -> Order {
    (o: Order, d: OrderPatch) =>
      Order(d.Id.GetOr(o.Id), d.items.GetOr(o.items), d.deliveryInfo.GetOr(o.deliveryInfo),
            d.paymentInfo.GetOr(o.paymentInfo), d.subtotal.GetOr(o.subtotal), d.tax.GetOr(o.tax),
            d.deliveryFee.GetOr(o.deliveryFee), d.total.GetOr(o.total), d.status.GetOr(o.status),
            d.createdAt.GetOr(o.createdAt), now)
  }

  function GetAll(store: seq<Order>): seq<Order> {
    Repository.GetAll(store)
  }

  /** `getById`: a copy of the first order with that id, or "Order not found". */
  function GetById(store: seq<Order>, id: int): (r: Repository.Reply<Order>)
    ensures r.store == store
    ensures r.result.Err? <==> forall i :: 0 <= i < |store| ==> store[i].Id != id
    ensures r.result.Err? ==> r.result.message == NotFound
    ensures r.result.Ok? ==>
              (exists i :: 0 <= i < |store| && store[i].Id == id &&
                 (forall j :: 0 <= j < i ==> store[j].Id != id) && r.result.value == store[i])
  {
    var r := Repository.GetById(store, KeyOf, id, NotFound);
    assert r.result.Ok? ==> exists i :: Repository.FirstMatch(store, KeyOf, id, i) && r.result.value == store[i];
    r
  }

  /** `create`: the payload is stored under the next id (one more than the
      greatest), after every existing order, with the two clock readings
      taken for `createdAt` and `updatedAt`. */
  function Create(store: seq<Order>, payload: OrderPayload, createdAt: string, updatedAt: string)
    : (r: Repository.Reply<Order>)
    ensures r.result.Ok?
    ensures r.store == store + [r.result.value]
    ensures r.result.value.Id == Repository.NextId(store, KeyOf)
    ensures forall i :: 0 <= i < |store| ==> store[i].Id < r.result.value.Id
    ensures Carries(r.result.value, payload)
    ensures r.result.value.createdAt == createdAt && r.result.value.updatedAt == updatedAt
  {
    Repository.Create(store, KeyOf, Stamp(createdAt, updatedAt), payload)
  }

  /** `update`: `data` is merged over the first order with that id, in
      place, and `updatedAt` is set to `now`; a missing id throws "Order not found". */
  function Update(store: seq<Order>, id: int, data: OrderPatch, now: string): (r: Repository.Reply<Order>)
    ensures r.result.Err? <==> forall i :: 0 <= i < |store| ==> store[i].Id != id
    ensures r.result.Err? ==> r.store == store && r.result.message == NotFound
    ensures r.result.Ok? ==> |r.store| == |store| && r.result.value.updatedAt == now
    ensures r.result.Ok? ==>
              (exists i :: 0 <= i < |store| && store[i].Id == id &&
                 (forall j :: 0 <= j < i ==> store[j].Id != id) &&
                 r.store == store[i := MergeAt(now)(store[i], data)] && r.result.value == r.store[i])
  {
    var r := Repository.Update(store, KeyOf, id, data, MergeAt(now), NotFound);
    assert r.result.Ok? ==>
      (exists i :: Repository.FirstMatch(store, KeyOf, id, i) &&
         r.result.value == MergeAt(now)(store[i], data) && r.store == store[i := r.result.value]);
    r
  }

  /** `delete`: the first order with that id is spliced out, the others
      keeping their order, and returned; a missing id throws "Order not found". */
  function Delete(store: seq<Order>, id: int): (r: Repository.Reply<Order>)
    ensures r.result.Err? <==> forall i :: 0 <= i < |store| ==> store[i].Id != id
    ensures r.result.Err? ==> r.store == store && r.result.message == NotFound
    ensures r.result.Ok? ==> |r.store| == |store| - 1 && r.result.value.Id == id
    ensures r.result.Ok? ==> multiset(r.store) + multiset{r.result.value} == multiset(store)
    ensures r.result.Ok? ==>
              (exists i :: 0 <= i < |store| && store[i].Id == id &&
                 (forall j :: 0 <= j < i ==> store[j].Id != id) &&
                 r.result.value == store[i] && r.store == store[..i] + store[i + 1..])
  {
    var r := Repository.Delete(store, KeyOf, id, NotFound);
    assert r.result.Ok? ==>
      (exists i :: Repository.FirstMatch(store, KeyOf, id, i) &&
         r.result.value == store[i] && r.store == store[..i] + store[i + 1..]);
    r
  }

  /** An order just created can be fetched back by the id it was given. */
  lemma CreatedOrderIsFound(store: seq<Order>, payload: OrderPayload, createdAt: string, updatedAt: string)
    ensures var c := Create(store, payload, createdAt, updatedAt);
            GetById(c.store, c.result.value.Id).result == c.result
  {
    Repository.CreateThenGetById(store, KeyOf, Stamp(createdAt, updatedAt), payload, NotFound);
  }
}
