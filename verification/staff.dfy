/** The staff dashboards (kitchen and bar): which actions an order card
    offers, the three-step policy behind "mark as done", the lists a board
    shows, and the requests the actions send to the server. Together they
    keep every order's payment consistent with its status. */
module StaffWorkflow {
  import opened Wrappers
  import opened Schema
  import opened Storage
  import opened Routes
  import Seqs

  datatype Dashboard = KitchenBoard | BarBoard

  /** The reason a board's cancel button sends. */
  function CancelReasonOf(d: Dashboard): string
  {
    match d
    case KitchenBoard => "Cancelled by kitchen staff"
    case BarBoard => "Cancelled by bar staff"
  }

  /** The requests a board sends to the server. */
  datatype Request =
    | SetStatus(id: int, status: string)                                // PUT /api/orders/:id
    | SetPayment(id: int, paymentMethod: string, paymentStatus: string) // PUT /api/orders/:id/payment
    | Cancel(id: int, reason: string)                                   // PUT /api/orders/:id/cancel

  /** What a click leads to: nothing, a request, or an error notice and no request. */
  datatype Outcome = Ignored | Send(request: Request) | Refused

  /** The buttons of an order card. */
  datatype CardAction =
    | Step1                          // "Mark as Delivered"
    | CancelButton
    | SelectMethod(choice: string)   // the payment-method selector
    | MarkPaid                       // "Mark Payment Received"
    | Step3                          // "Mark as Complete"

  /** The payment methods the selector offers. */
  const Methods: seq<string> := [MethodCash, MethodUpi, MethodCard]

  // ---------------------------------------------------------------------------
  // Board lists

  /** The first order of the board's list with the given id. */
  function FindOrder(orders: seq<Order>, id: int): (r: Option<Order>)
    ensures r.Some? ==> r.value in orders && r.value.id == id
    ensures r.None? <==> forall i :: 0 <= i < |orders| ==> orders[i].id != id
  {
    if |orders| == 0 then None
    else if orders[0].id == id then Some(orders[0])
    else FindOrder(orders[1..], id)
  }

  predicate IsActive(o: Order)
  {
    o.status == StatusPending || o.status == StatusReady
  }

  predicate IsDone(o: Order)
  {
    o.status == StatusCompleted
  }

  /** The board's working list: the pending and the ready orders, in list order. */
  function ActiveOrders(orders: seq<Order>): (r: seq<Order>)
    ensures forall o :: o in r <==> o in orders && IsActive(o)
  {
    Seqs.Filter(orders, IsActive)
  }

  /** The completed orders the board shows: the first three. */
  function CompletedShown(orders: seq<Order>): (r: seq<Order>)
    ensures |r| == if |Seqs.Filter(orders, IsDone)| < 3 then |Seqs.Filter(orders, IsDone)| else 3
    ensures forall o :: o in r ==> o in orders && IsDone(o)
    ensures r <= Seqs.Filter(orders, IsDone)
  {
    Seqs.Take(Seqs.Filter(orders, IsDone), 3)
  }

  /** An order is on the board exactly when it is pending, ready, or one of
      the first three completed ones: a preparing or cancelled order is never
      shown. */
  lemma OnBoard(orders: seq<Order>, o: Order)
    ensures o in ActiveOrders(orders) + CompletedShown(orders) ==>
      o in orders && (o.status == StatusPending || o.status == StatusReady || o.status == StatusCompleted)
    ensures o in orders && IsActive(o) ==> o in ActiveOrders(orders) + CompletedShown(orders)
  {
  }

  // ---------------------------------------------------------------------------
  // The order card

  /** The buttons a card offers, in display order. A completed order offers
      none. A pending order offers step 1 and cancel; the kitchen card also
      shows step 1 for a preparing order. A ready order without a method
      offers the method selector, one with a method that is not yet paid
      offers the receipt button, and a ready paid order offers step 3. */
  function Actions(o: Order, d: Dashboard): (r: seq<CardAction>)
    ensures o.status == StatusCompleted ==> r == []
    ensures Step1 in r <==> o.status == StatusPending || (d == KitchenBoard && o.status == StatusPreparing)
    ensures CancelButton in r <==> o.status == StatusPending
    ensures MarkPaid in r <==>
      o.status == StatusReady && TruthyText(o.paymentMethod) && o.paymentStatus != PaymentPaid
    ensures Step3 in r <==> o.status == StatusReady && o.paymentStatus == PaymentPaid
    ensures forall m :: SelectMethod(m) in r <==>
      o.status == StatusReady && !TruthyText(o.paymentMethod) && m in Methods
  {
    if o.status == StatusCompleted then []
    else
      (if o.status == StatusPending then [Step1, CancelButton] else [])
      + (if o.status == StatusPreparing && d == KitchenBoard then [Step1] else [])
      + (if o.status == StatusReady then
           if !TruthyText(o.paymentMethod) then [SelectMethod(MethodCash), SelectMethod(MethodUpi), SelectMethod(MethodCard)]
           else if o.paymentStatus != PaymentPaid then [MarkPaid]
           else []
         else [])
      + (if o.status == StatusReady && o.paymentStatus == PaymentPaid then [Step3] else [])
  }

  /** "Mark as done" on the board's list: an id not in the list does nothing;
      a pending order is advanced to ready; a ready, paid order is completed;
      anything else gets an error notice and no request. */
  function MarkAsDone(orders: seq<Order>, id: int): (r: Outcome)
    ensures r.Ignored? <==> FindOrder(orders, id).None?
    ensures r.Send? <==>
      var o := FindOrder(orders, id);
      o.Some? && (o.value.status == StatusPending || (o.value.status == StatusReady && o.value.paymentStatus == PaymentPaid))
    ensures r.Send? ==> r.request.SetStatus? && r.request.id == id
    ensures r.Send? && r.request.status == StatusCompleted ==>
      FindOrder(orders, id).value.status == StatusReady && FindOrder(orders, id).value.paymentStatus == PaymentPaid
    ensures r.Send? ==>
      r.request.status == (if FindOrder(orders, id).value.status == StatusPending then StatusReady else StatusCompleted)
  {
    match FindOrder(orders, id)
    case None => Ignored
    case Some(o) =>
      if o.status == StatusPending then Send(SetStatus(id, StatusReady))
      else if o.status == StatusReady && o.paymentStatus == PaymentPaid then Send(SetStatus(id, StatusCompleted))
      else Refused
  }

  /** The request a card button sends. Both step buttons go through "mark as
      done" on the board's list; the cancel button sends the board's reason
      (the confirmation dialog is taken as accepted); the selector sends the
      chosen method as pending; the receipt button resends the order's method
      as paid. */
  function Click(orders: seq<Order>, o: Order, a: CardAction, d: Dashboard): Outcome
  {
    match a
    case Step1 => MarkAsDone(orders, o.id)
    case Step3 => MarkAsDone(orders, o.id)
    case CancelButton => Send(Cancel(o.id, CancelReasonOf(d)))
    case SelectMethod(m) => Send(SetPayment(o.id, m, PaymentPending))
    case MarkPaid => Send(SetPayment(o.id, if o.paymentMethod.Some? then o.paymentMethod.value else "", PaymentPaid))
  }

  /** The server's handling of a board request. */
  function Apply(s: Store, req: Request, now: Millis): (r: Reply)
    ensures req.id !in s.orders ==> r.store == s && r.response.NotFound? && r.event.None?
    ensures Valid(s) ==> Valid(r.store)
  {
    match req
    case SetStatus(id, status) => PutOrder(s, id, OrderPatch(Some(status), None, None, None), now)
    case SetPayment(id, m, ps) => PutPayment(s, id, Some(m), ps, now)
    case Cancel(id, reason) => PutCancel(s, id, Some(reason), now)
  }

  // ---------------------------------------------------------------------------
  // Properties of the policy

  /** The kitchen card's step 1 button for a preparing order sends nothing,
      and such an order is never on the board anyway. */
  lemma PreparingStep1IsDead(orders: seq<Order>, o: Order)
    requires o.status == StatusPreparing && FindOrder(orders, o.id) == Some(o)
    ensures Step1 in Actions(o, KitchenBoard)
    ensures Click(orders, o, Step1, KitchenBoard) == Refused
    ensures o !in ActiveOrders(orders) + CompletedShown(orders)
  {
  }

  /** Payment is marked received only for an order that already has a method,
      and the method sent is that one. */
  lemma PaidOnlyWithMethod(orders: seq<Order>, o: Order, a: CardAction, d: Dashboard)
    requires a in Actions(o, d)
    requires Click(orders, o, a, d).Send?
    requires Click(orders, o, a, d).request.SetPayment?
    requires Click(orders, o, a, d).request.paymentStatus == PaymentPaid
    ensures TruthyText(o.paymentMethod)
    ensures Click(orders, o, a, d).request.paymentMethod == o.paymentMethod.value
  {
  }

  /** A staff-driven order is consistent: completed only when paid, and paid
      only with a payment method. */
  predicate Settled(o: Order)
  {
    && (o.status == StatusCompleted ==> o.paymentStatus == PaymentPaid)
    && (o.paymentStatus == PaymentPaid ==> TruthyText(o.paymentMethod))
  }

  predicate Consistent(s: Store)
  {
    forall id :: id in s.orders ==> Settled(s.orders[id])
  }

  /** Any button a card offers, clicked on a card that shows the order as
      stored and handled by the server, keeps every order consistent. */
  lemma {:induction false} ClickKeepsConsistent(s: Store, orders: seq<Order>, o: Order, a: CardAction, d: Dashboard, now: Millis)
    requires Consistent(s)
    requires o.id in s.orders && s.orders[o.id] == o
    requires FindOrder(orders, o.id) == Some(o)
    requires a in Actions(o, d)
    ensures Click(orders, o, a, d).Send? ==> Consistent(Apply(s, Click(orders, o, a, d).request, now).store)
  {
    var c := Click(orders, o, a, d);
    if c.Send? {
      var r := Apply(s, c.request, now);
      forall id | id in r.store.orders
        ensures Settled(r.store.orders[id])
      {
        if id != o.id {
          assert r.store.orders[id] == s.orders[id];
        } else {
          SettledAfter(s, o, c.request, now);
        }
      }
    }
  }

  /** The order a request leaves under `o.id` is settled, for a request a
      card of `o` can send. */
  lemma SettledAfter(s: Store, o: Order, req: Request, now: Millis)
    requires Settled(o) && o.id in s.orders && s.orders[o.id] == o && req.id == o.id
    requires match req
      case SetStatus(_, st) =>
        (st == StatusReady && o.status == StatusPending)
        || (st == StatusCompleted && o.status == StatusReady && o.paymentStatus == PaymentPaid)
      case SetPayment(_, m, ps) =>
        (ps == PaymentPending && o.status != StatusCompleted) || (ps == PaymentPaid && TruthyText(o.paymentMethod) && m == o.paymentMethod.value)
      case Cancel(_, _) => true
    ensures o.id in Apply(s, req, now).store.orders && Settled(Apply(s, req, now).store.orders[o.id])
  {
  }

  /** An order placed as the customer page places it (status pending, no
      payment status) is consistent, so placement keeps the store consistent. */
  lemma PlacementKeepsConsistent(s: Store, ins: InsertOrder, now: Millis)
    requires Valid(s) && Consistent(s)
    requires ins.status == Some(StatusPending) && ins.paymentStatus.None?
    ensures Consistent(PostOrder(s, Some(ins), now).store)
  {
    var created := CreateOrder(s, ins, now);
    assert created.value.status == StatusPending && created.value.paymentStatus == PaymentPending;
    assert Settled(created.value);
    var r := PostOrder(s, Some(ins), now);
    assert r.store.orders == created.store.orders;
  }
}
