/** The HTTP handlers of the order lifecycle and of the pause control, each a
    transition from the store to the new store, the response and the event
    broadcast to connected displays (if any). */
module Routes {
  import opened Wrappers
  import opened Schema
  import opened Storage
  import opened PauseControl

  /** Messages broadcast to the connected displays. */
  datatype Event =
    | NewOrder(order: Order, serviceType: string)
    | OrderUpdated(orderId: int, status: Option<string>, order: Order)
    | PaymentUpdated(orderId: int, paymentMethod: Option<string>, paymentStatus: string, order: Order)
    | OrderCancelled(orderId: int, order: Order)
    | OrdersReset(message: string)
    | OrdersPauseUpdated(serviceType: string, isPaused: bool, pauseDurationMinutes: Option<int>, pauseReason: Option<string>)

  /** Response bodies of successful requests. */
  datatype Body =
    | OrderBody(order: Order)
    | SettingsBody(settings: PauseSettings)
    | PauseBody(status: PauseStatus)
    | MessageBody(message: string)

  datatype Response =
    | Created(order: Order)            // 201
    | Ok(body: Body)                   // 200
    | NotFound(message: string)        // 404
    | BadRequest                       // 400
    | ServiceUnavailable(status: PauseStatus)  // 503

  /** The outcome of a request: the store afterwards, the response, the broadcast. */
  datatype Reply = Reply(store: Store, response: Response, event: Option<Event>)

  const OrderNotFound: string := "Order not found"
  const NotCancellable: string := "Order not found or cannot be cancelled"
  const DefaultCancelReason: string := "Cancelled by customer request"
  const ResetReply: string := "Completed orders reset successfully"
  const ResetBroadcast: string := "Completed orders have been reset"

  // ---------------------------------------------------------------------------
  // Order placement

  /** The order item recorded for one line of a placed order. */
  function LineInsert(orderId: int, line: LineItem): InsertOrderItem
  {
    InsertOrderItem(Some(orderId), Some(line.id), line.quantity, line.price, line.name)
  }

  /** The order item recorded for `line` of the order `orderId`. */
  predicate RecordsLine(item: OrderItem, orderId: int, line: LineItem)
  {
    && item.orderId == orderId && item.menuItemId == line.id && item.quantity == line.quantity
    && item.price == line.price && item.itemName == line.name
  }

  /** The items under the keys [next, next + |lines|) of `s` copy the lines, in order, for `orderId`. */
  predicate ItemsRecorded(s: Store, next: int, orderId: int, lines: seq<LineItem>)
  {
    forall k :: next <= k < next + |lines| ==> k in s.orderItems && RecordsLine(s.orderItems[k], orderId, lines[k - next])
  }

  /** Records one order item per line, in line order, under consecutive ids. */
  function CreateItems(s: Store, orderId: int, lines: seq<LineItem>): (r: Step<seq<OrderItem>>)
    ensures |r.value| == |lines|
    ensures forall i :: 0 <= i < |lines| ==> r.value[i].id == s.nextOrderItemId + i
    ensures r.store.nextOrderItemId == s.nextOrderItemId + |lines|
    ensures forall k :: k in r.store.orderItems <==> k in s.orderItems || s.nextOrderItemId <= k < r.store.nextOrderItemId
    ensures forall k :: k in s.orderItems && k < s.nextOrderItemId ==> r.store.orderItems[k] == s.orderItems[k]
    ensures r.store.orders == s.orders && r.store.nextOrderId == s.nextOrderId
    ensures r.store.pauseSettings == s.pauseSettings && r.store.nextPauseSettingsId == s.nextPauseSettingsId
    ensures Valid(s) && orderId < s.nextOrderId ==> Valid(r.store)
    decreases |lines|
  {
    if |lines| == 0 then Step(s, [])
    else
      var first := CreateOrderItem(s, LineInsert(orderId, lines[0]));
      var rest := CreateItems(first.store, orderId, lines[1..]);
      Step(rest.store, [first.value] + rest.value)
  }

  /** The items `CreateItems` records copy the lines, in order, for `orderId`. */
  lemma {:induction false} CreateItemsRecords(s: Store, orderId: int, lines: seq<LineItem>)
    ensures ItemsRecorded(CreateItems(s, orderId, lines).store, s.nextOrderItemId, orderId, lines)
    decreases |lines|
  {
    if |lines| > 0 {
      var first := CreateOrderItem(s, LineInsert(orderId, lines[0]));
      var rest := CreateItems(first.store, orderId, lines[1..]);
      CreateItemsRecords(first.store, orderId, lines[1..]);
      assert CreateItems(s, orderId, lines).store == rest.store;
      FirstItemKept(s, orderId, lines);
      ItemsRecordedCons(rest.store, s.nextOrderItemId, orderId, lines);
    }
  }

  /** The item recorded for the first line survives the recording of the rest. */
  lemma FirstItemKept(s: Store, orderId: int, lines: seq<LineItem>)
    requires |lines| > 0
    ensures var first := CreateOrderItem(s, LineInsert(orderId, lines[0]));
      var rest := CreateItems(first.store, orderId, lines[1..]);
      && s.nextOrderItemId in rest.store.orderItems
      && RecordsLine(rest.store.orderItems[s.nextOrderItemId], orderId, lines[0])
  {
    var first := CreateOrderItem(s, LineInsert(orderId, lines[0]));
    assert s.nextOrderItemId in first.store.orderItems && s.nextOrderItemId < first.store.nextOrderItemId;
  }

  /** The first line recorded at `next` and the rest from `next + 1` on make
      the whole list recorded from `next`. */
  lemma ItemsRecordedCons(st: Store, next: int, orderId: int, lines: seq<LineItem>)
    requires |lines| > 0
    requires next in st.orderItems && RecordsLine(st.orderItems[next], orderId, lines[0])
    requires ItemsRecorded(st, next + 1, orderId, lines[1..])
    ensures ItemsRecorded(st, next, orderId, lines)
  {
    forall k | next <= k < next + |lines|
      ensures k in st.orderItems && RecordsLine(st.orderItems[k], orderId, lines[k - next])
    {
      if k > next {
        assert lines[1..][k - (next + 1)] == lines[k - next];
      }
    }
  }

  /** `POST /api/orders` as written: a body that fails validation is refused;
      otherwise the order is created and one item is recorded per readable
      line of its `items`, in order. When reading stops at an unreadable
      element, the order and the items recorded so far stay stored, nothing
      is broadcast and the answer is 400; otherwise `new_order` is broadcast
      and the order is returned with 201. The pause state is not consulted. */
  function PostOrder(s: Store, body: Option<InsertOrder>, now: Millis): (r: Reply)
    ensures body.None? ==> r == Reply(s, BadRequest, None)
    ensures body.Some? ==>
      var created := CreateOrder(s, body.value, now);
      var lines := body.value.items.lines;
      && r.store.orders == created.store.orders
      && r.store.nextOrderId == s.nextOrderId + 1
      && r.store.nextOrderItemId == s.nextOrderItemId + |lines|
      && ItemsRecorded(r.store, s.nextOrderItemId, created.value.id, lines)
      && (forall k :: k in r.store.orderItems <==> k in s.orderItems || s.nextOrderItemId <= k < r.store.nextOrderItemId)
      && (forall k :: k in s.orderItems && k < s.nextOrderItemId ==> r.store.orderItems[k] == s.orderItems[k])
      && (body.value.items.Lines? ==>
            r.response == Created(created.value) && r.event == Some(NewOrder(created.value, created.value.serviceType)))
      && (body.value.items.Unreadable? ==> r.response == BadRequest && r.event.None?)
    ensures r.store.pauseSettings == s.pauseSettings && r.store.nextPauseSettingsId == s.nextPauseSettingsId
    ensures Valid(s) ==> Valid(r.store)
  {
    match body
    case None => Reply(s, BadRequest, None)
    case Some(ins) =>
      var created := CreateOrder(s, ins, now);
      var items := CreateItems(created.store, created.value.id, ins.items.lines);
      assert created.store.nextOrderItemId == s.nextOrderItemId;
      CreateItemsRecords(created.store, created.value.id, ins.items.lines);
      if ins.items.Lines? then
        Reply(items.store, Created(created.value), Some(NewOrder(created.value, created.value.serviceType)))
      else
        Reply(items.store, BadRequest, None)
  }

  /** An element without a price stops the handler after the lines before it:
      the order and those items stay stored, and the request is answered 400
      without a broadcast. */
  lemma PriceMissingKeepsPrefix()
    ensures var tea := LineItem(1, "Tea", 50, 1);
      var ins := InsertOrder(None, "T1", Restaurant, None, 50, Unreadable([tea]), None, None, None);
      var r := PostOrder(Initial(), Some(ins), 0);
      && r.response == BadRequest && r.event.None?
      && 1 in r.store.orders
      && r.store.orderItems == map[1 := OrderItem(1, 1, 1, 1, 50, "Tea")]
  {
  }

  /** When `new_order` is broadcast, every line of the order already has its
      item: the items listed for the new order are exactly one per line. */
  lemma PostOrderItemsBeforeEvent(s: Store, ins: InsertOrder, now: Millis)
    requires Valid(s) && ins.items.Lines?
    ensures var r := PostOrder(s, Some(ins), now);
      var id := CreateOrder(s, ins, now).value.id;
      && r.event.Some?
      && |GetOrderItems(r.store, id)| == |ins.items.lines|
  {
    var created := CreateOrder(s, ins, now);
    var id := created.value.id;
    var lines := ins.items.lines;
    assert PostOrder(s, Some(ins), now).store == CreateItems(created.store, id, lines).store;
    assert created.store.orderItems == s.orderItems && id == s.nextOrderId;
    ItemsOfNewOrder(created.store, id, lines);
  }

  /** Recording the lines of an order that has no items yet gives it exactly
      one item per line. */
  lemma ItemsOfNewOrder(c: Store, id: int, lines: seq<LineItem>)
    requires Valid(c) && id < c.nextOrderId
    requires forall k :: k in c.orderItems ==> c.orderItems[k].orderId != id
    ensures |GetOrderItems(CreateItems(c, id, lines).store, id)| == |lines|
  {
    var r := CreateItems(c, id, lines).store;
    CreateItemsRecords(c, id, lines);
    forall k | k in r.orderItems && r.orderItems[k].orderId == id
      ensures c.nextOrderItemId <= k < c.nextOrderItemId + |lines|
    {
    }
    ItemsOfOrderCount(r, id, c.nextOrderItemId, |lines|);
  }

  /** In a valid store whose items for `orderId` are exactly those under
      the keys [lo, lo + n), the listing of that order's items has n entries. */
  lemma ItemsOfOrderCount(s: Store, orderId: int, lo: int, n: nat)
    requires Valid(s)
    requires forall k :: lo <= k < lo + n ==> k in s.orderItems && s.orderItems[k].orderId == orderId
    requires forall k :: k in s.orderItems && s.orderItems[k].orderId == orderId ==> lo <= k < lo + n
    ensures |GetOrderItems(s, orderId)| == n
  {
    var m := s.orderItems;
    CountAscending(m, 1, s.nextOrderItemId, OfOrder(orderId));
    var keys := KeysWhere(m, 1, s.nextOrderItemId, OfOrder(orderId));
    assert keys == set k | k in m && lo <= k < lo + n;
    KeyRangeSize(m, lo, n);
  }

  /** A map holding every key of [lo, lo + n) has n keys in that range. */
  lemma {:induction false} KeyRangeSize<V>(m: map<int, V>, lo: int, n: nat)
    requires forall k :: lo <= k < lo + n ==> k in m
    ensures |set k | k in m && lo <= k < lo + n| == n
    decreases n
  {
    if n > 0 {
      KeyRangeSize(m, lo, n - 1);
      assert (set k | k in m && lo <= k < lo + n) == (set k | k in m && lo <= k < lo + n - 1) + {lo + n - 1};
    }
  }

  /** Placement never reads the pause state: the outcome is the same whether
      or not the channel is paused, so a paused channel still takes orders. */
  lemma PostOrderIgnoresPause(s: Store, body: Option<InsertOrder>, now: Millis, pauses: map<int, PauseSettings>, nextPause: int)
    ensures var s' := s.(pauseSettings := pauses, nextPauseSettingsId := nextPause);
      && PostOrder(s', body, now).response == PostOrder(s, body, now).response
      && PostOrder(s', body, now).event == PostOrder(s, body, now).event
  {
  }

  /** A concrete case: a bar pause started a minute ago for thirty minutes,
      and a bar order placed now is still accepted with 201. */
  lemma PausedChannelStillAccepts()
    ensures var now := 10 * MillisPerMinute;
      var paused := UpsertPauseSettings(Initial(), InsertPauseSettings(Bar, true, 30, DefaultPauseReason, Some(now - MillisPerMinute)), now).store;
      var ins := InsertOrder(None, "T1", Bar, None, 500, Lines([]), None, None, None);
      && CheckPaused(paused, Bar, now).value.Paused?
      && PostOrder(paused, Some(ins), now).response.Created?
  {
    var now := 10 * MillisPerMinute;
    var paused := UpsertPauseSettings(Initial(), InsertPauseSettings(Bar, true, 30, DefaultPauseReason, Some(now - MillisPerMinute)), now).store;
    assert Valid(Initial());
  }

  /** Placement gated by the pause check: a paused channel answers 503 with
      the pause status and creates nothing; otherwise placement proceeds on
      the store the check left (an expired pause cleared). */
  function PostOrderGated(s: Store, body: Option<InsertOrder>, now: Millis): (r: Reply)
    ensures body.None? ==> r == Reply(s, BadRequest, None)
    ensures body.Some? ==>
      var rec := GetPauseSettings(s, body.value.serviceType);
      rec.Some? && Armed(rec.value) && now < Deadline(rec.value.pausedAt.value, rec.value.pauseDurationMinutes) ==>
        && r.store == s && r.event.None?
        && r.response.ServiceUnavailable? && r.response.status.Paused?
        && r.response.status.pausedAt == rec.value.pausedAt.value
    ensures body.Some? ==>
      var rec := GetPauseSettings(s, body.value.serviceType);
      !(rec.Some? && Armed(rec.value) && now < Deadline(rec.value.pausedAt.value, rec.value.pauseDurationMinutes)) ==>
        && r.store.nextOrderId == s.nextOrderId + 1
        && s.nextOrderId in r.store.orders
        && r.store.orders[s.nextOrderId] == CreateOrder(s, body.value, now).value
        && r.store.orders == s.orders[s.nextOrderId := CreateOrder(s, body.value, now).value]
        && r.store.pauseSettings == CheckPaused(s, body.value.serviceType, now).store.pauseSettings
        && ItemsRecorded(r.store, s.nextOrderItemId, s.nextOrderId, body.value.items.lines)
        && (forall k :: k in r.store.orderItems <==> k in s.orderItems || s.nextOrderItemId <= k < r.store.nextOrderItemId)
        && (forall k :: k in s.orderItems && k < s.nextOrderItemId ==> r.store.orderItems[k] == s.orderItems[k])
        && (body.value.items.Lines? ==>
              && r.response == Created(r.store.orders[s.nextOrderId])
              && r.event == Some(NewOrder(r.store.orders[s.nextOrderId], body.value.serviceType)))
        && (body.value.items.Unreadable? ==> r.response == BadRequest && r.event.None?)
    ensures Valid(s) ==> Valid(r.store)
  {
    match body
    case None => Reply(s, BadRequest, None)
    case Some(ins) =>
      var check := CheckPaused(s, ins.serviceType, now);
      if check.value.Paused? then Reply(s, ServiceUnavailable(check.value), None)
      else PostOrder(check.store, body, now)
  }

  /** The gated placement creates an order exactly when the channel is not
      paused at the time of the request. */
  lemma GatedPlacementRespectsPause(s: Store, ins: InsertOrder, now: Millis)
    ensures var rec := GetPauseSettings(s, ins.serviceType);
      var paused := rec.Some? && Armed(rec.value) && now < Deadline(rec.value.pausedAt.value, rec.value.pauseDurationMinutes);
      && (paused ==>
            PostOrderGated(s, Some(ins), now).store == s && PostOrderGated(s, Some(ins), now).response.ServiceUnavailable?)
      && (!paused ==> PostOrderGated(s, Some(ins), now).store.nextOrderId == s.nextOrderId + 1)
  {
  }

  // ---------------------------------------------------------------------------
  // Staff transitions

  /** `PUT /api/orders/:id`: the permissive update; 404 and no broadcast for
      an unknown id, otherwise `order_updated` with the order as updated. */
  function PutOrder(s: Store, id: int, updates: OrderPatch, now: Millis): (r: Reply)
    ensures id !in s.orders ==> r == Reply(s, NotFound(OrderNotFound), None)
    ensures id in s.orders ==>
      var u := UpdateOrder(s, id, updates, now);
      && r.store == u.store
      && r.response == Ok(OrderBody(u.value.value))
      && r.event == Some(OrderUpdated(id, updates.status, u.value.value))
      && r.store.orders[id] == u.value.value
    ensures Valid(s) ==> Valid(r.store)
  {
    var u := UpdateOrder(s, id, updates, now);
    match u.value
    case None => Reply(u.store, NotFound(OrderNotFound), None)
    case Some(o) => Reply(u.store, Ok(OrderBody(o)), Some(OrderUpdated(id, updates.status, o)))
  }

  /** `PUT /api/orders/:id/payment` (the registration that serves the route):
      writes the method and the payment status and nothing else. */
  function PutPayment(s: Store, id: int, paymentMethod: Option<string>, paymentStatus: string, now: Millis): (r: Reply)
    ensures id !in s.orders ==> r == Reply(s, NotFound(OrderNotFound), None)
    ensures id in s.orders ==>
      id in r.store.orders &&
      var o, u := s.orders[id], r.store.orders[id];
      && r.store == s.(orders := s.orders[id := u])
      && u == o.(paymentMethod := paymentMethod, paymentStatus := paymentStatus)
      && r.response == Ok(OrderBody(u))
      && r.event == Some(PaymentUpdated(id, paymentMethod, paymentStatus, u))
    ensures Valid(s) ==> Valid(r.store)
  {
    PutOrder(s, id, OrderPatch(None, Some(paymentMethod), Some(paymentStatus), None), now)
      .(event := PaymentEvent(s, id, paymentMethod, paymentStatus, now))
  }

  /** The `payment_updated` broadcast, when the order exists. */
  function PaymentEvent(s: Store, id: int, paymentMethod: Option<string>, paymentStatus: string, now: Millis): Option<Event>
  {
    var u := UpdateOrder(s, id, OrderPatch(None, Some(paymentMethod), Some(paymentStatus), None), now);
    match u.value
    case None => None
    case Some(o) => Some(PaymentUpdated(id, paymentMethod, paymentStatus, o))
  }

  /** `PUT /api/orders/:id/cancel`: cancels with the given reason, or the
      default one when the reason is absent or empty; 404 and no broadcast
      when the order is missing or no longer cancellable. */
  function PutCancel(s: Store, id: int, reason: Option<string>, now: Millis): (r: Reply)
    ensures !(id in s.orders && Cancellable(s.orders[id])) ==> r == Reply(s, NotFound(NotCancellable), None)
    ensures id in s.orders && Cancellable(s.orders[id]) ==>
      id in r.store.orders &&
      var c := r.store.orders[id];
      && c.status == StatusCancelled && c.cancelledAt == Some(now)
      && c.cancelReason == Some(if TruthyText(reason) then reason.value else DefaultCancelReason)
      && r.response == Ok(OrderBody(c))
      && r.event == Some(OrderCancelled(id, c))
    ensures id in s.orders && Cancellable(s.orders[id]) ==>
      id in r.store.orders &&
      var o, c := s.orders[id], r.store.orders[id];
      && r.store == s.(orders := s.orders[id := c])
      && c.(status := o.status, cancelledAt := o.cancelledAt, cancelReason := o.cancelReason) == o
    ensures Valid(s) ==> Valid(r.store)
  {
    var c := CancelOrder(s, id, OrText(reason, DefaultCancelReason), now);
    match c.value
    case None => Reply(c.store, NotFound(NotCancellable), None)
    case Some(o) => Reply(c.store, Ok(OrderBody(o)), Some(OrderCancelled(id, o)))
  }

  /** `POST /api/orders/reset`: removes completed orders with their items,
      then broadcasts `orders_reset`. */
  function PostReset(s: Store): (r: Reply)
    ensures r.store == ResetCompletedOrders(s)
    ensures forall id :: id in r.store.orders ==> r.store.orders[id].status != StatusCompleted
    ensures r.response == Ok(MessageBody(ResetReply))
    ensures r.event == Some(OrdersReset(ResetBroadcast))
    ensures Valid(s) ==> Valid(r.store)
  {
    Reply(ResetCompletedOrders(s), Ok(MessageBody(ResetReply)), Some(OrdersReset(ResetBroadcast)))
  }

  /** A second reset right after the first removes nothing more. */
  lemma ResetIdempotent(s: Store)
    ensures PostReset(PostReset(s).store).store == PostReset(s).store
  {
    var once := PostReset(s).store;
    var twice := PostReset(once).store;
    assert twice.orders == once.orders;
    assert twice.orderItems == once.orderItems;
  }

  // ---------------------------------------------------------------------------
  // Pause control

  /** `GET /api/order-pause/:serviceType`: the pause check, whose side effect
      (clearing an expired pause) is kept. */
  function GetPause(s: Store, serviceType: string, now: Millis): (r: Reply)
    ensures r.response.Ok? && r.response.body.PauseBody? && r.event.None?
    ensures var rec := GetPauseSettings(s, serviceType);
      r.response.body.status.Paused? <==>
        rec.Some? && Armed(rec.value) && now < Deadline(rec.value.pausedAt.value, rec.value.pauseDurationMinutes)
    ensures var status, rec := r.response.body.status, GetPauseSettings(s, serviceType);
      status.Paused? ==>
        && r.store == s
        && status.pausedAt == rec.value.pausedAt.value
        && status.pauseDurationMinutes == rec.value.pauseDurationMinutes
        && status.pauseReason == rec.value.pauseReason
        && 0 < status.remainingTimeMinutes
        && (status.remainingTimeMinutes - 1) * MillisPerMinute < Deadline(status.pausedAt, status.pauseDurationMinutes) - now
        && Deadline(status.pausedAt, status.pauseDurationMinutes) - now <= status.remainingTimeMinutes * MillisPerMinute
    ensures var rec := GetPauseSettings(s, serviceType);
      Valid(s) && r.response.body.status.NotPaused? && rec.Some? && Armed(rec.value) ==>
        && GetPauseSettings(r.store, serviceType) == Some(rec.value.(isPaused := false, updatedAt := now))
        && r.store.orders == s.orders && r.store.orderItems == s.orderItems
    ensures var rec := GetPauseSettings(s, serviceType);
      !(rec.Some? && Armed(rec.value)) ==> r.store == s && r.response.body.status == NotPaused
    ensures r.store.orders == s.orders && r.store.orderItems == s.orderItems
    ensures r.store.nextOrderId == s.nextOrderId && r.store.nextOrderItemId == s.nextOrderItemId
    ensures r.store.nextPauseSettingsId == s.nextPauseSettingsId
    ensures Valid(s) ==> forall t :: t != serviceType ==> GetPauseSettings(r.store, t) == GetPauseSettings(s, t)
    ensures Valid(s) ==> Valid(r.store)
  {
    var check := CheckPaused(s, serviceType, now);
    Reply(check.store, Ok(PauseBody(check.value)), None)
  }

  /** `POST /api/order-pause`: the duration falls back to 30 minutes and the
      reason to "Rush hours" when absent or falsy; `pausedAt` is stamped with
      `now` only when pausing, so resuming keeps the previous start. The
      broadcast carries the request's own values, not the fallbacks. */
  function PostPause(s: Store, serviceType: string, isPaused: bool, pauseDurationMinutes: Option<int>,
                     pauseReason: Option<string>, now: Millis): (r: Reply)
    ensures r.response.Ok? && r.response.body.SettingsBody?
    ensures var v := r.response.body.settings;
      && v.serviceType == serviceType && v.isPaused == isPaused
      && v.pauseDurationMinutes == (if TruthyNumber(pauseDurationMinutes) then pauseDurationMinutes.value else DefaultPauseMinutes)
      && v.pauseReason == (if TruthyText(pauseReason) then pauseReason.value else DefaultPauseReason)
      && (isPaused ==> v.pausedAt == Some(now))
    ensures Valid(s) && !isPaused ==>
      var before := GetPauseSettings(s, serviceType);
      r.response.body.settings.pausedAt == (if before.Some? then before.value.pausedAt else None)
    ensures r.event == Some(OrdersPauseUpdated(serviceType, isPaused, pauseDurationMinutes, pauseReason))
    ensures Valid(s) ==> Valid(r.store) && GetPauseSettings(r.store, serviceType) == Some(r.response.body.settings)
    ensures r.store.orders == s.orders && r.store.orderItems == s.orderItems
    ensures r.store.nextOrderId == s.nextOrderId && r.store.nextOrderItemId == s.nextOrderItemId
    ensures Valid(s) ==> forall t :: t != serviceType ==> GetPauseSettings(r.store, t) == GetPauseSettings(s, t)
  {
    var ins := InsertPauseSettings(
      serviceType, isPaused,
      OrNumber(pauseDurationMinutes, DefaultPauseMinutes),
      OrText(pauseReason, DefaultPauseReason),
      if isPaused then Some(now) else None);
    var u := UpsertPauseSettings(s, ins, now);
    UpsertOthersAll(s, ins, now);
    Reply(u.store, Ok(SettingsBody(u.value)),
          Some(OrdersPauseUpdated(serviceType, isPaused, pauseDurationMinutes, pauseReason)))
  }

  /** Pausing a channel makes the check report it paused for the whole
      duration, with the full duration remaining at the start. */
  lemma PauseThenCheck(s: Store, serviceType: string, minutes: int, reason: string, now: Millis, later: Millis)
    requires Valid(s) && minutes > 0
    requires now <= later < now + minutes * MillisPerMinute
    ensures var paused := PostPause(s, serviceType, true, Some(minutes), Some(reason), now).store;
      var check := CheckPaused(paused, serviceType, later).value;
      && check.Paused?
      && (later == now ==> check.remainingTimeMinutes == minutes)
  {
    var paused := PostPause(s, serviceType, true, Some(minutes), Some(reason), now).store;
    if later == now {
      FloorMinutesBelow(0, minutes);
    }
  }
}
