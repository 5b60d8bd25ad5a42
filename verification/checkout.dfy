/** The checkout page's submit logic: form validation, the empty-cart
    guard, the fee and tax arithmetic, the order payload, and the sequence
    of store actions dispatched around the repository's `create` call. The
    repository call is an abstract outcome: the created order, or a failure
    message. */
module Checkout {
  import opened Results
  import opened Text
  import Cart
  import OrderSlice
  import opened OrderService

  // ---------------------------------------------------------------------
  // Money.

  const DeliveryFee: real := 5.99
  const TaxRate: real := 0.08

  /** `total * 0.08`, exact (display rounding is not part of the model). */
  function Tax(subtotal: real): real {
    subtotal * TaxRate
  }

  /** `total + deliveryFee + tax`: the subtotal grown by the tax rate, plus the fee. */
  function FinalTotal(subtotal: real): (r: real)
    ensures r == subtotal * 1.08 + 5.99
    ensures r - subtotal - DeliveryFee == Tax(subtotal)
  {
    subtotal + DeliveryFee + Tax(subtotal)
  }

  /** A 20.00 cart is charged 1.60 tax and 27.59 in all. */
  lemma TwentyDollarCart()
    ensures Tax(20.00) == 1.60 && FinalTotal(20.00) == 27.59
  {
  }

  // ---------------------------------------------------------------------
  // The form.

  datatype CheckoutForm = CheckoutForm(
    name: string, email: string, phone: string, address: string, city: string, zipCode: string,
    paymentMethod: PaymentMethod, cardNumber: string, expiryDate: string, cvv: string)

  /** The form's initial contents: everything empty, paying by card. */
  const InitialForm: CheckoutForm := CheckoutForm("", "", "", "", "", "", Card, "", "", "")

  datatype Field = Name | Email | Phone | Address | City | ZipCode | CardNumber | ExpiryDate | Cvv

  function ValueOf(form: CheckoutForm, f: Field): string {
    match f
    case Name => form.name
    case Email => form.email
    case Phone => form.phone
    case Address => form.address
    case City => form.city
    case ZipCode => form.zipCode
    case CardNumber => form.cardNumber
    case ExpiryDate => form.expiryDate
    case Cvv => form.cvv
  }

  /** Delivery fields are always required; card fields only when paying by card. */
  predicate Required(f: Field, payment: PaymentMethod) {
    !(f.CardNumber? || f.ExpiryDate? || f.Cvv?) || payment == Card
  }

  /** `{f}` when the check for `f` fails, and nothing otherwise. */
  function ErrorIf(fails: bool, f: Field): set<Field> {
    if fails then {f} else {}
  }

  lemma InErrorIf(fails: bool, f: Field, g: Field)
    ensures g in ErrorIf(fails, f) <==> fails && g == f
  {
  }

  /** The delivery fields reported when `blank` says which values trim to
      nothing, checked in the source's order. */
  function DeliveryErrors(blank: Field -> bool): set<Field> {
    ErrorIf(blank(Name), Name) + ErrorIf(blank(Email), Email) +
    ErrorIf(blank(Phone), Phone) + ErrorIf(blank(Address), Address) +
    ErrorIf(blank(City), City) + ErrorIf(blank(ZipCode), ZipCode)
  }

  /** The card fields reported, checked only when paying by card. */
  function CardErrors(blank: Field -> bool): set<Field> {
    ErrorIf(blank(CardNumber), CardNumber) + ErrorIf(blank(ExpiryDate), ExpiryDate) + ErrorIf(blank(Cvv), Cvv)
  }

  lemma DeliveryErrorsExact(blank: Field -> bool, f: Field)
    ensures f in DeliveryErrors(blank) <==> !(f.CardNumber? || f.ExpiryDate? || f.Cvv?) && blank(f)
  {
    InErrorIf(blank(Name), Name, f);
    InErrorIf(blank(Email), Email, f);
    InErrorIf(blank(Phone), Phone, f);
    InErrorIf(blank(Address), Address, f);
    InErrorIf(blank(City), City, f);
    InErrorIf(blank(ZipCode), ZipCode, f);
  }

  lemma CardErrorsExact(blank: Field -> bool, f: Field)
    ensures f in CardErrors(blank) <==> (f.CardNumber? || f.ExpiryDate? || f.Cvv?) && blank(f)
  {
    InErrorIf(blank(CardNumber), CardNumber, f);
    InErrorIf(blank(ExpiryDate), ExpiryDate, f);
    InErrorIf(blank(Cvv), Cvv, f);
  }

  /** The keys `validateForm` puts in `newErrors`. */
  function FormErrors(form: CheckoutForm): set<Field> {
    var blank := (f: Field) => IsBlank(ValueOf(form, f));
    if form.paymentMethod == Card then DeliveryErrors(blank) + CardErrors(blank) else DeliveryErrors(blank)
  }

  /** A field is reported exactly when it is required for the chosen
      payment method and its value trims to nothing. */
  lemma FormErrorsExact(form: CheckoutForm, f: Field)
    ensures f in FormErrors(form) <==> Required(f, form.paymentMethod) && IsBlank(ValueOf(form, f))
  {
    var blank := (g: Field) => IsBlank(ValueOf(form, g));
    DeliveryErrorsExact(blank, f);
    CardErrorsExact(blank, f);
  }

  /** `validateForm()`: true when no field has an error. */
  function ValidateForm(form: CheckoutForm): (ok: bool)
    ensures ok <==> forall f :: Required(f, form.paymentMethod) ==> !IsBlank(ValueOf(form, f))
  {
    forall f ensures f in FormErrors(form) <==> Required(f, form.paymentMethod) && IsBlank(ValueOf(form, f)) {
      FormErrorsExact(form, f);
    }
    FormErrors(form) == {}
  }

  /** The form is valid exactly when `trim` leaves something of each of
      the six delivery fields and, for a card payment, of the three card fields. */
  lemma ValidIffFilledIn(form: CheckoutForm)
    ensures ValidateForm(form) <==>
      |Trim(form.name)| > 0 && |Trim(form.email)| > 0 && |Trim(form.phone)| > 0 &&
      |Trim(form.address)| > 0 && |Trim(form.city)| > 0 && |Trim(form.zipCode)| > 0 &&
      (form.paymentMethod == Card ==>
         |Trim(form.cardNumber)| > 0 && |Trim(form.expiryDate)| > 0 && |Trim(form.cvv)| > 0)
  {
    forall f: Field ensures IsBlank(ValueOf(form, f)) <==> |Trim(ValueOf(form, f))| == 0 {
      TrimLeavesNothingIffBlank(ValueOf(form, f));
    }
    assert ValueOf(form, Name) == form.name;
    assert ValueOf(form, Email) == form.email;
    assert ValueOf(form, Phone) == form.phone;
    assert ValueOf(form, Address) == form.address;
    assert ValueOf(form, City) == form.city;
    assert ValueOf(form, ZipCode) == form.zipCode;
    assert ValueOf(form, CardNumber) == form.cardNumber;
    assert ValueOf(form, ExpiryDate) == form.expiryDate;
    assert ValueOf(form, Cvv) == form.cvv;
  }

  /** Paying cash, the card fields do not affect validity. */
  lemma CashIgnoresCardFields(form: CheckoutForm, cardNumber: string, expiryDate: string, cvv: string)
    requires form.paymentMethod == Cash
    ensures ValidateForm(form) ==
            ValidateForm(form.(cardNumber := cardNumber, expiryDate := expiryDate, cvv := cvv))
  {
    var other := form.(cardNumber := cardNumber, expiryDate := expiryDate, cvv := cvv);
    assert forall f :: Required(f, Cash) ==> ValueOf(form, f) == ValueOf(other, f);
  }

  /** The untouched initial form does not validate. */
  lemma InitialFormIsInvalid()
    ensures !ValidateForm(InitialForm)
  {
    assert Required(Name, Card) && IsBlank(ValueOf(InitialForm, Name));
  }

  // ---------------------------------------------------------------------
  // The order payload.

  /** An order item copies the four fields of a cart line. */
  function ItemOf(line: Cart.CartLine): OrderItem {
    OrderItem(line.productId, line.product, line.quantity, line.subtotal)
  }

  function Items(lines: seq<Cart.CartLine>): (r: seq<OrderItem>)
    ensures |r| == |lines|
    ensures forall k :: 0 <= k < |lines| ==> r[k] == ItemOf(lines[k])
  {
    if |lines| == 0 then [] else [ItemOf(lines[0])] + Items(lines[1..])
  }

  /** `paymentInfo`: the method, plus `cardNumber.slice(-4)` only for a card. */
  function SanitizedPayment(form: CheckoutForm): (p: PaymentInfo)
    ensures p.paymentMethod == form.paymentMethod
    ensures p.cardNumber.Some? <==> form.paymentMethod == Card
    ensures p.cardNumber.Some? ==>
              |p.cardNumber.value| == (if |form.cardNumber| < 4 then |form.cardNumber| else 4) &&
              p.cardNumber.value == form.cardNumber[|form.cardNumber| - |p.cardNumber.value|..]
  {
    if form.paymentMethod == Card then PaymentInfo(Card, Some(SliceLast(form.cardNumber, 4)))
    else PaymentInfo(form.paymentMethod, None)
  }

  /** `orderData`, built from the cart's lines and total and the form. */
  function BuildPayload(cart: Cart.Cart, form: CheckoutForm): (p: OrderPayload)
    ensures |p.items| == |cart.items|
    ensures forall k :: 0 <= k < |cart.items| ==>
              p.items[k].productId == cart.items[k].productId && p.items[k].product == cart.items[k].product &&
              p.items[k].quantity == cart.items[k].quantity && p.items[k].subtotal == cart.items[k].subtotal
    ensures p.deliveryInfo == DeliveryInfo(form.name, form.email, form.phone, form.address, form.city, form.zipCode)
    ensures p.paymentInfo == SanitizedPayment(form)
    ensures p.subtotal == cart.total && p.deliveryFee == DeliveryFee
    ensures p.tax == cart.total * 0.08 && p.total == cart.total * 1.08 + 5.99
    ensures p.status == "confirmed"
  {
    OrderPayload(
      Items(cart.items),
      DeliveryInfo(form.name, form.email, form.phone, form.address, form.city, form.zipCode),
      SanitizedPayment(form),
      cart.total, Tax(cart.total), DeliveryFee, FinalTotal(cart.total), "confirmed")
  }

  /** A card number longer than four characters never reaches the payload
      whole; for instance "4111111111111111" is kept as "1111". */
  lemma CardNumberIsTruncated(cart: Cart.Cart, form: CheckoutForm)
    requires form.paymentMethod == Card && |form.cardNumber| > 4
    ensures BuildPayload(cart, form).paymentInfo.cardNumber != Some(form.cardNumber)
    ensures form.cardNumber == "4111111111111111" ==>
              BuildPayload(cart, form).paymentInfo.cardNumber == Some("1111")
  {
  }

  // ---------------------------------------------------------------------
  // Submitting.

  /** What the repository's `create` did with the payload. */
  datatype CreateOutcome = Created(order: Order) | CreateFailed(message: string)

  /** Why `handleSubmit` returned early (after a toast). */
  datatype Rejection = InvalidForm(errors: set<Field>) | EmptyCart

  /** An action dispatched to one of the two slices. */
  datatype StoreAction = CartAction(cartAction: Cart.CartAction) | OrderAction(orderAction: OrderSlice.OrderAction)

  /** Either an early return, before anything is dispatched or sent to the
      repository; or the payload sent to `create` and the actions dispatched. */
  datatype Submission =
    | Rejected(reason: Rejection)
    | Submitted(payload: OrderPayload, dispatched: seq<StoreAction>)

  /** `handleSubmit`: validation first, then the empty-cart guard, then
      start → create → success and clearCart, or start → error. */
  function HandleSubmit(cart: Cart.Cart, form: CheckoutForm, outcome: CreateOutcome): (s: Submission)
    ensures s.Rejected? <==> !ValidateForm(form) || |cart.items| == 0
    ensures !ValidateForm(form) ==> s.Rejected? && s.reason.InvalidForm? && s.reason.errors != {}
    ensures ValidateForm(form) && |cart.items| == 0 ==> s == Rejected(EmptyCart)
    ensures s.Submitted? ==> s.payload == BuildPayload(cart, form)
    ensures s.Submitted? ==> |s.dispatched| > 0 && s.dispatched[0] == OrderAction(OrderSlice.Start)
    ensures s.Submitted? && outcome.Created? ==>
              s.dispatched == [OrderAction(OrderSlice.Start), OrderAction(OrderSlice.Success(outcome.order)),
                               CartAction(Cart.Clear)]
    ensures s.Submitted? && outcome.CreateFailed? ==>
              s.dispatched == [OrderAction(OrderSlice.Start), OrderAction(OrderSlice.Failure(outcome.message))]
  {
    if !ValidateForm(form) then Rejected(InvalidForm(FormErrors(form)))
    else if |cart.items| == 0 then Rejected(EmptyCart)
    else
      var payload := BuildPayload(cart, form);
      match outcome
      case Created(order) =>
        Submitted(payload, [OrderAction(OrderSlice.Start), OrderAction(OrderSlice.Success(order)),
                            CartAction(Cart.Clear)])
      case CreateFailed(message) =>
        Submitted(payload, [OrderAction(OrderSlice.Start), OrderAction(OrderSlice.Failure(message))])
  }

  // ---------------------------------------------------------------------
  // The store the actions are dispatched to.

  datatype Store = Store(cart: Cart.Cart, order: OrderSlice.OrderState)

  function Dispatch(st: Store, a: StoreAction): Store {
    match a
    case CartAction(c) => st.(cart := Cart.Reduce(st.cart, c))
    case OrderAction(o) => st.(order := OrderSlice.Reduce(st.order, o))
  }

  function DispatchAll(st: Store, actions: seq<StoreAction>): Store
    decreases |actions|
  {
    if |actions| == 0 then st else DispatchAll(Dispatch(st, actions[0]), actions[1..])
  }

  /** The "Place Order" button is disabled while an order is loading. */
  predicate PlaceOrderEnabled(st: Store) {
    !st.order.loading
  }

  /** The store after one press of "Place Order". The button's click is
      the only way into `handleSubmit`: it sits outside the form, which has
      no submit button and several text inputs, so Enter does not submit.
      A disabled button takes no click. */
  function PlaceOrder(st: Store, form: CheckoutForm, outcome: CreateOutcome): (r: Store)
    ensures !PlaceOrderEnabled(st) ==> r == st
    ensures !ValidateForm(form) || |st.cart.items| == 0 ==> r == st
    ensures PlaceOrderEnabled(st) && ValidateForm(form) && |st.cart.items| > 0 && outcome.Created? ==>
              r == Store(Cart.ClearCart(st.cart),
                         OrderSlice.CreateOrderSuccess(OrderSlice.CreateOrderStart(st.order), outcome.order))
    ensures PlaceOrderEnabled(st) && ValidateForm(form) && |st.cart.items| > 0 && outcome.CreateFailed? ==>
              r == Store(st.cart, OrderSlice.CreateOrderError(OrderSlice.CreateOrderStart(st.order), outcome.message))
  {
    if !PlaceOrderEnabled(st) then st
    else
      match HandleSubmit(st.cart, form, outcome)
      case Rejected(_) => st
      case Submitted(_, actions) =>
        match outcome
        case Created(order) => SuccessTrace(st, order); DispatchAll(st, actions)
        case CreateFailed(message) => FailureTrace(st, message); DispatchAll(st, actions)
  }

  /** A rejected submission leaves the store exactly as it was. */
  lemma RejectedSubmitChangesNothing(st: Store, form: CheckoutForm, outcome: CreateOutcome)
    requires !ValidateForm(form) || |st.cart.items| == 0
    ensures PlaceOrder(st, form, outcome) == st
  {
  }

  /** The store after the actions dispatched for a created order. */
  lemma SuccessTrace(st: Store, order: Order)
    ensures DispatchAll(st, [OrderAction(OrderSlice.Start), OrderAction(OrderSlice.Success(order)), CartAction(Cart.Clear)])
            == Store(Cart.ClearCart(st.cart), OrderSlice.CreateOrderSuccess(OrderSlice.CreateOrderStart(st.order), order))
  {
    var acts := [OrderAction(OrderSlice.Start), OrderAction(OrderSlice.Success(order)), CartAction(Cart.Clear)];
    var s1 := Store(st.cart, OrderSlice.CreateOrderStart(st.order));
    var s2 := Store(st.cart, OrderSlice.CreateOrderSuccess(s1.order, order));
    var s3 := Store(Cart.ClearCart(st.cart), s2.order);
    assert acts[1..][1..] == [acts[2]];
    calc {
      DispatchAll(st, acts);
      DispatchAll(s1, acts[1..]);
      DispatchAll(s2, [acts[2]]);
      DispatchAll(s3, []);
    }
  }

  /** The store after the actions dispatched for a failed create. */
  lemma FailureTrace(st: Store, message: string)
    ensures DispatchAll(st, [OrderAction(OrderSlice.Start), OrderAction(OrderSlice.Failure(message))])
            == Store(st.cart, OrderSlice.CreateOrderError(OrderSlice.CreateOrderStart(st.order), message))
  {
    var acts := [OrderAction(OrderSlice.Start), OrderAction(OrderSlice.Failure(message))];
    var s1 := Store(st.cart, OrderSlice.CreateOrderStart(st.order));
    var s2 := Store(st.cart, OrderSlice.CreateOrderError(s1.order, message));
    calc {
      DispatchAll(st, acts);
      DispatchAll(s1, acts[1..]);
      DispatchAll(s2, []);
    }
  }

  /** A successful submission empties the cart, makes the created order
      current and appends it to the session's orders, and ends with no
      loading and no error. */
  lemma SuccessfulSubmitClearsCart(st: Store, form: CheckoutForm, order: Order)
    requires PlaceOrderEnabled(st) && ValidateForm(form) && |st.cart.items| > 0
    ensures var r := PlaceOrder(st, form, Created(order));
            r.cart == Cart.Empty &&
            r.order.currentOrder == Some(order) &&
            r.order.orders == st.order.orders + [order] &&
            !r.order.loading && r.order.error.None?
  {
    var acts := [OrderAction(OrderSlice.Start), OrderAction(OrderSlice.Success(order)), CartAction(Cart.Clear)];
    assert HandleSubmit(st.cart, form, Created(order)).dispatched == acts;
    SuccessTrace(st, order);
    var r := PlaceOrder(st, form, Created(order));
    assert r.order.orders == st.order.orders + [order];
  }

  /** A failed submission keeps the cart for a retry, keeps the current
      order and the order list, records the message, and ends with no loading. */
  lemma FailedSubmitKeepsCart(st: Store, form: CheckoutForm, message: string)
    requires PlaceOrderEnabled(st) && ValidateForm(form) && |st.cart.items| > 0
    ensures var r := PlaceOrder(st, form, CreateFailed(message));
            r.cart == st.cart &&
            r.order.currentOrder == st.order.currentOrder &&
            r.order.orders == st.order.orders &&
            !r.order.loading && r.order.error == Some(message)
  {
    assert HandleSubmit(st.cart, form, CreateFailed(message)).dispatched ==
           [OrderAction(OrderSlice.Start), OrderAction(OrderSlice.Failure(message))];
    FailureTrace(st, message);
  }

  /** A press while an order is loading submits nothing: no validation, no
      action, no second order. */
  lemma PressWhileLoadingChangesNothing(st: Store, form: CheckoutForm, outcome: CreateOutcome)
    requires st.order.loading
    ensures PlaceOrder(st, form, outcome) == st
  {
  }

  /** Once the start action is in, a second press is ignored until the
      outcome arrives. */
  lemma SecondPressInFlightIsIgnored(st: Store, form: CheckoutForm, outcome: CreateOutcome)
    ensures var inFlight := Dispatch(st, OrderAction(OrderSlice.Start));
            PlaceOrder(inFlight, form, outcome) == inFlight
  {
    PressWhileLoadingChangesNothing(Dispatch(st, OrderAction(OrderSlice.Start)), form, outcome);
  }

  /** Whatever the outcome, a press on an enabled button leaves it enabled:
      the submission never leaves the order loading. */
  lemma PressLeavesButtonEnabled(st: Store, form: CheckoutForm, outcome: CreateOutcome)
    requires PlaceOrderEnabled(st)
    ensures PlaceOrderEnabled(PlaceOrder(st, form, outcome))
  {
    if ValidateForm(form) && |st.cart.items| > 0 {
      match outcome
      case Created(order) => SuccessfulSubmitClearsCart(st, form, order);
      case CreateFailed(message) => FailedSubmitKeepsCart(st, form, message);
    }
  }

  /** With the in-memory order service as the repository, the order that
      becomes current carries exactly the cart's lines, the form's delivery
      details, the sanitized payment and the computed money, under a fresh id. */
  lemma SubmitThroughOrderService(st: Store, form: CheckoutForm, orders: seq<Order>,
                                  createdAt: string, updatedAt: string)
    requires PlaceOrderEnabled(st) && ValidateForm(form) && |st.cart.items| > 0
    ensures var created := OrderService.Create(orders, BuildPayload(st.cart, form), createdAt, updatedAt).result.value;
            var r := PlaceOrder(st, form, Created(created));
            r.order.currentOrder == Some(created) &&
            |created.items| == |st.cart.items| &&
            (forall k :: 0 <= k < |st.cart.items| ==> created.items[k] == ItemOf(st.cart.items[k])) &&
            created.paymentInfo == SanitizedPayment(form) &&
            created.total == st.cart.total * 1.08 + 5.99 &&
            (forall k :: 0 <= k < |orders| ==> orders[k].Id != created.Id)
  {
    var created := OrderService.Create(orders, BuildPayload(st.cart, form), createdAt, updatedAt).result.value;
    SuccessfulSubmitClearsCart(st, form, created);
  }
}
