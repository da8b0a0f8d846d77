/** The in-memory store of orders and order items: id allocation, the
    permissive order update, the cancellation guard and the deletion of
    orders together with their items. */
module Storage {
  import opened Wrappers
  import opened Schema
  import Seqs

  /** The store's collections, keyed by id, and the next id of each kind. */
  datatype Store = Store(
    orders: map<int, Order>,
    orderItems: map<int, OrderItem>,
    pauseSettings: map<int, PauseSettings>,
    nextOrderId: int,
    nextOrderItemId: int,
    nextPauseSettingsId: int)

  /** The outcome of an operation on the store: the new store and the value returned. */
  datatype Step<T> = Step(store: Store, value: T)

  /** A fresh store: empty collections, every counter at 1. */
  function Initial(): (s: Store)
    ensures Valid(s)
  {
    Store(map[], map[], map[], 1, 1, 1)
  }

  /** The store invariant: every record sits under its own id, ids lie below
      their counter, items only reference allocated order ids, and there is
      at most one pause record per service channel. */
  ghost predicate Valid(s: Store)
  {
    && 1 <= s.nextOrderId && 1 <= s.nextOrderItemId && 1 <= s.nextPauseSettingsId
    && (forall id :: id in s.orders ==> 1 <= id < s.nextOrderId && s.orders[id].id == id)
    && (forall k :: k in s.orderItems ==>
          1 <= k < s.nextOrderItemId && s.orderItems[k].id == k && s.orderItems[k].orderId < s.nextOrderId)
    && (forall k :: k in s.pauseSettings ==> 1 <= k < s.nextPauseSettingsId && s.pauseSettings[k].id == k)
    && (forall a, b :: a in s.pauseSettings && b in s.pauseSettings && a != b ==>
          s.pauseSettings[a].serviceType != s.pauseSettings[b].serviceType)
  }

  // ---------------------------------------------------------------------------
  // Iteration order

  /** The values of `m` under the keys in [lo, hi), in ascending key order. This
      is the iteration order of a JavaScript Map whose keys were inserted in
      increasing order, as the store's counters guarantee. */
  function Ascending<V>(m: map<int, V>, lo: int, hi: int): (r: seq<V>)
    ensures |r| <= if hi <= lo then 0 else hi - lo
    decreases hi - lo
  {
    if hi <= lo then []
    else Ascending(m, lo, hi - 1) + (if hi - 1 in m then [m[hi - 1]] else [])
  }

  lemma {:induction false} AscendingHas<V>(m: map<int, V>, lo: int, hi: int, k: int)
    requires lo <= k < hi && k in m
    ensures m[k] in Ascending(m, lo, hi)
    decreases hi - lo
  {
    if k < hi - 1 {
      AscendingHas(m, lo, hi - 1, k);
    }
  }

  lemma {:induction false} AscendingFrom<V>(m: map<int, V>, lo: int, hi: int, v: V)
    requires v in Ascending(m, lo, hi)
    ensures exists k :: lo <= k < hi && k in m && m[k] == v
    decreases hi - lo
  {
    if hi > lo {
      if v in Ascending(m, lo, hi - 1) {
        AscendingFrom(m, lo, hi - 1, v);
      } else {
        assert hi - 1 in m && m[hi - 1] == v;
      }
    }
  }

  /** Maps that agree on [lo, hi) list the same values. */
  lemma {:induction false} AscendingAgree<V>(m: map<int, V>, m': map<int, V>, lo: int, hi: int)
    requires forall k :: lo <= k < hi ==> (k in m <==> k in m')
    requires forall k :: lo <= k < hi && k in m ==> m[k] == m'[k]
    ensures Ascending(m, lo, hi) == Ascending(m', lo, hi)
    decreases hi - lo
  {
    if hi > lo {
      AscendingAgree(m, m', lo, hi - 1);
    }
  }

  /** The keys in [lo, hi) whose values satisfy `p`. */
  function KeysWhere<V>(m: map<int, V>, lo: int, hi: int, p: V -> bool): set<int>
  {
    set k | k in m && lo <= k < hi && p(m[k])
  }

  /** Listing then filtering selects as many values as the map holds under
      keys in [lo, hi) that satisfy the filter. */
  lemma {:induction false} CountAscending<V>(m: map<int, V>, lo: int, hi: int, p: V -> bool)
    ensures |Seqs.Filter(Ascending(m, lo, hi), p)| == |KeysWhere(m, lo, hi, p)|
    decreases hi - lo
  {
    if hi > lo {
      CountAscending(m, lo, hi - 1, p);
      var tail := if hi - 1 in m then [m[hi - 1]] else [];
      Seqs.FilterConcat(Ascending(m, lo, hi - 1), tail, p);
      var all := KeysWhere(m, lo, hi, p);
      var below := KeysWhere(m, lo, hi - 1, p);
      if hi - 1 in m {
        Seqs.FilterSingle(m[hi - 1], p);
      }
      if hi - 1 in m && p(m[hi - 1]) {
        assert all == below + {hi - 1};
      } else {
        assert all == below;
      }
    }
  }

  /** The orders in the store's iteration order (ascending id). */
  function OrderList(s: Store): seq<Order>
  {
    Ascending(s.orders, 1, s.nextOrderId)
  }

  /** The order items in the store's iteration order (ascending id). */
  function ItemList(s: Store): seq<OrderItem>
  {
    Ascending(s.orderItems, 1, s.nextOrderItemId)
  }

  /** In a valid store, an order is listed exactly when it is stored under its id. */
  lemma OrderListMembers(s: Store, o: Order)
    requires Valid(s)
    ensures o in OrderList(s) <==> o.id in s.orders && s.orders[o.id] == o
  {
    if o in OrderList(s) {
      AscendingFrom(s.orders, 1, s.nextOrderId, o);
    }
    if o.id in s.orders && s.orders[o.id] == o {
      AscendingHas(s.orders, 1, s.nextOrderId, o.id);
    }
  }

  /** In a valid store, an item is listed exactly when it is stored under its id. */
  lemma ItemListMembers(s: Store, it: OrderItem)
    requires Valid(s)
    ensures it in ItemList(s) <==> it.id in s.orderItems && s.orderItems[it.id] == it
  {
    if it in ItemList(s) {
      AscendingFrom(s.orderItems, 1, s.nextOrderItemId, it);
    }
    if it.id in s.orderItems && s.orderItems[it.id] == it {
      AscendingHas(s.orderItems, 1, s.nextOrderItemId, it.id);
    }
  }

  // ---------------------------------------------------------------------------
  // Orders

  /** Creation of an order: the next id, the order number from the channel and
      the clock, the `||` fallbacks of the insert input, and no completion. */
  function CreateOrder(s: Store, ins: InsertOrder, now: Millis): (r: Step<Order>)
    ensures r.value.id == s.nextOrderId && r.store.nextOrderId == s.nextOrderId + 1
    ensures Valid(s) ==> r.value.id !in s.orders && Valid(r.store)
    ensures r.store == s.(orders := s.orders[r.value.id := r.value], nextOrderId := s.nextOrderId + 1)
    ensures r.value.status == StatusPending <==> !TruthyText(ins.status) || ins.status.value == StatusPending
    ensures r.value.paymentStatus == PaymentPending <==> !TruthyText(ins.paymentStatus) || ins.paymentStatus.value == PaymentPending
    ensures r.value.status == (if TruthyText(ins.status) then ins.status.value else StatusPending)
    ensures r.value.paymentStatus == (if TruthyText(ins.paymentStatus) then ins.paymentStatus.value else PaymentPending)
    ensures r.value.paymentMethod == (if TruthyText(ins.paymentMethod) then ins.paymentMethod else None)
    ensures r.value.tableId == (if TruthyNumber(ins.tableId) then ins.tableId else None)
    ensures r.value.orderNumber == OrderNumber(ins.serviceType, now)
    ensures r.value.cancelReason == ins.cancelReason
    ensures r.value.completedAt.None? && r.value.cancelledAt.None? && r.value.createdAt == now
    ensures r.value.tableNumber == ins.tableNumber && r.value.serviceType == ins.serviceType
    ensures r.value.totalAmount == ins.totalAmount && r.value.items == ins.items
  {
    var order := Order(
      id := s.nextOrderId,
      orderNumber := OrderNumber(ins.serviceType, now),
      tableId := NumberOrNull(ins.tableId),
      tableNumber := ins.tableNumber,
      serviceType := ins.serviceType,
      status := OrText(ins.status, StatusPending),
      totalAmount := ins.totalAmount,
      items := ins.items,
      paymentMethod := TextOrNull(ins.paymentMethod),
      paymentStatus := OrText(ins.paymentStatus, PaymentPending),
      createdAt := now,
      completedAt := None,
      cancelledAt := None,
      cancelReason := ins.cancelReason);
    Step(s.(orders := s.orders[order.id := order], nextOrderId := s.nextOrderId + 1), order)
  }

  /** A new order joins the end of the iteration order. */
  lemma CreateOrderAppends(s: Store, ins: InsertOrder, now: Millis)
    requires Valid(s)
    ensures OrderList(CreateOrder(s, ins, now).store) == OrderList(s) + [CreateOrder(s, ins, now).value]
  {
    var r := CreateOrder(s, ins, now);
    AscendingAgree(s.orders, r.store.orders, 1, s.nextOrderId);
  }

  /** The id, order number, creation time and the completion and cancellation
      stamps are assigned by the store: two inputs for the same channel, given
      to the same store at the same time, yield the same server-assigned fields
      whatever else they carry. */
  lemma CreateOrderServerAssigned(s: Store, a: InsertOrder, b: InsertOrder, now: Millis)
    requires a.serviceType == b.serviceType
    ensures var oa, ob := CreateOrder(s, a, now).value, CreateOrder(s, b, now).value;
      && oa.id == ob.id && oa.orderNumber == ob.orderNumber && oa.createdAt == ob.createdAt
      && oa.completedAt == ob.completedAt == None && oa.cancelledAt == ob.cancelledAt == None
  {
  }

  /** Order numbers are not unique: two orders of one channel created in the
      same millisecond get distinct ids and the same order number. */
  lemma SameMillisecondNumbersCollide(s: Store, a: InsertOrder, b: InsertOrder, now: Millis)
    requires a.serviceType == b.serviceType
    ensures var first := CreateOrder(s, a, now);
      var second := CreateOrder(first.store, b, now);
      && first.value.id != second.value.id
      && first.value.orderNumber == second.value.orderNumber
      && first.value.id in second.store.orders && second.value.id in second.store.orders
  {
  }

  /** The fields an order update may carry. `None` is a key absent from the
      request; `Some(None)` on a nullable field writes `null`. */
  datatype OrderPatch = OrderPatch(
    status: Option<string>,
    paymentMethod: Option<Option<string>>,
    paymentStatus: Option<string>,
    completedAt: Option<Option<Millis>>)

  /** `{ ...order, ...updates }`: the supplied fields overwrite, the rest stay. */
  function ApplyPatch(o: Order, p: OrderPatch): Order
  {
    o.(status := p.status.GetOr(o.status),
       paymentMethod := p.paymentMethod.GetOr(o.paymentMethod),
       paymentStatus := p.paymentStatus.GetOr(o.paymentStatus),
       completedAt := p.completedAt.GetOr(o.completedAt))
  }

  /** The permissive order update: merge the supplied fields; when the update
      sets status "completed" and the merged order has no completion time,
      stamp it with `now`. */
  function UpdateOrder(s: Store, id: int, p: OrderPatch, now: Millis): (r: Step<Option<Order>>)
    ensures id !in s.orders ==> r == Step(s, None)
    ensures id in s.orders ==> r.value.Some? && r.store == s.(orders := s.orders[id := r.value.value])
    ensures id in s.orders ==>
      var o, u := s.orders[id], r.value.value;
      && u.status == p.status.GetOr(o.status)
      && u.paymentMethod == p.paymentMethod.GetOr(o.paymentMethod)
      && u.paymentStatus == p.paymentStatus.GetOr(o.paymentStatus)
      // nothing but the four patchable fields changes
      && u.(status := o.status, paymentMethod := o.paymentMethod,
            paymentStatus := o.paymentStatus, completedAt := o.completedAt) == o
      // an existing completion time survives any update that does not name it
      && (p.completedAt.None? && o.completedAt.Some? ==> u.completedAt == o.completedAt)
      // a completion time is stamped only by a "completed" update that finds none
      && (u.completedAt == Some(now) && u.completedAt != p.completedAt.GetOr(o.completedAt) ==>
            p.status == Some(StatusCompleted))
      && (p.status == Some(StatusCompleted) && p.completedAt.GetOr(o.completedAt).None? ==> u.completedAt == Some(now))
      && (p.completedAt.GetOr(o.completedAt).Some? ==> u.completedAt == p.completedAt.GetOr(o.completedAt))
      && (p.status != Some(StatusCompleted) ==> u.completedAt == p.completedAt.GetOr(o.completedAt))
    ensures Valid(s) ==> Valid(r.store)
  {
    if id !in s.orders then Step(s, None)
    else
      var merged := ApplyPatch(s.orders[id], p);
      var updated :=
        if p.status == Some(StatusCompleted) && merged.completedAt.None? then merged.(completedAt := Some(now))
        else merged;
      Step(s.(orders := s.orders[id := updated]), Some(updated))
  }

  /** `completedAt` is stamped once: a second "completed" update, at any later
      time, leaves the first stamp in place. */
  lemma CompletedAtStampedOnce(s: Store, id: int, t1: Millis, t2: Millis)
    requires id in s.orders && s.orders[id].completedAt.None?
    ensures var p := OrderPatch(Some(StatusCompleted), None, None, None);
      var first := UpdateOrder(s, id, p, t1);
      var second := UpdateOrder(first.store, id, p, t2);
      && first.value.value.completedAt == Some(t1)
      && second.value.value.completedAt == Some(t1)
  {
  }

  /** The statuses from which an order may still be cancelled. */
  predicate Cancellable(o: Order)
  {
    o.status == StatusPending || o.status == StatusPreparing
  }

  /** Cancellation: only a pending or preparing order, which becomes
      "cancelled" with the time and the reason; anything else is refused and
      the store is left as it was. */
  function CancelOrder(s: Store, id: int, reason: string, now: Millis): (r: Step<Option<Order>>)
    ensures r.value.Some? <==> id in s.orders && Cancellable(s.orders[id])
    ensures r.value.None? ==> r.store == s
    ensures r.value.Some? ==>
      var o, c := s.orders[id], r.value.value;
      && r.store == s.(orders := s.orders[id := c])
      && c.status == StatusCancelled && c.cancelledAt == Some(now) && c.cancelReason == Some(reason)
      && c.(status := o.status, cancelledAt := o.cancelledAt, cancelReason := o.cancelReason) == o
    ensures Valid(s) ==> Valid(r.store)
  {
    if id !in s.orders then Step(s, None)
    else
      var o := s.orders[id];
      if !Cancellable(o) then Step(s, None)
      else
        var c := o.(status := StatusCancelled, cancelledAt := Some(now), cancelReason := Some(reason));
        Step(s.(orders := s.orders[id := c]), Some(c))
  }

  /** Cancellation never touches a ready, completed or cancelled order. */
  lemma CancelGuard(s: Store, id: int, reason: string, now: Millis)
    requires id in s.orders
    requires s.orders[id].status in {StatusReady, StatusCompleted, StatusCancelled}
    ensures CancelOrder(s, id, reason, now) == Step(s, None)
  {
  }

  /** `status` / `serviceType` query filters: an absent or empty filter matches all. */
  predicate MatchesQuery(o: Order, status: Option<string>, serviceType: Option<string>)
  {
    && (TruthyText(status) ==> o.status == status.value)
    && (TruthyText(serviceType) ==> o.serviceType == serviceType.value)
  }

  function CreatedAtOf(o: Order): int
  {
    o.createdAt
  }

  /** The stored orders that match the filters, in iteration order. */
  function Matching(s: Store, status: Option<string>, serviceType: Option<string>): seq<Order>
  {
    Seqs.Filter(OrderList(s), (o: Order) => MatchesQuery(o, status, serviceType))
  }

  /** The order listing: the orders that match the filters, newest first. */
  function GetOrders(s: Store, status: Option<string>, serviceType: Option<string>): (r: seq<Order>)
    ensures Seqs.SortedDesc(r, CreatedAtOf)
    ensures forall i :: 0 <= i < |r| ==> r[i] in OrderList(s) && MatchesQuery(r[i], status, serviceType)
    ensures forall o :: o in OrderList(s) && MatchesQuery(o, status, serviceType) ==> o in r
    ensures multiset(r) == multiset(Matching(s, status, serviceType))
  {
    var matching := Matching(s, status, serviceType);
    var sorted := Seqs.SortDesc(matching, CreatedAtOf);
    Seqs.SameElements(sorted, matching);
    forall i | 0 <= i < |sorted| ensures sorted[i] in OrderList(s) && MatchesQuery(sorted[i], status, serviceType) {
      assert sorted[i] in matching;
    }
    sorted
  }

  /** The sort is stable: orders created at the same instant keep their
      ascending-id order in the listing. */
  lemma GetOrdersTiesById(s: Store, status: Option<string>, serviceType: Option<string>, t: Millis)
    ensures Seqs.KeyFilter(GetOrders(s, status, serviceType), CreatedAtOf, t)
         == Seqs.KeyFilter(Matching(s, status, serviceType), CreatedAtOf, t)
  {
    Seqs.SortDescStable(Matching(s, status, serviceType), CreatedAtOf, t);
  }

  // ---------------------------------------------------------------------------
  // Order items

  function OfOrder(orderId: int): OrderItem -> bool
  {
    (it: OrderItem) => it.orderId == orderId
  }

  /** The items of one order, in ascending item id. */
  function GetOrderItems(s: Store, orderId: int): (r: seq<OrderItem>)
    ensures forall i :: 0 <= i < |r| ==> r[i].orderId == orderId && r[i] in ItemList(s)
    ensures forall it :: it in ItemList(s) && it.orderId == orderId ==> it in r
    ensures Valid(s) ==> IdsIncrease(r)
  {
    ItemListFilterIncreasing(s, OfOrder(orderId));
    Seqs.Filter(ItemList(s), OfOrder(orderId))
  }

  /** Item ids strictly ascending: each item listed once, in insertion order. */
  predicate IdsIncrease(items: seq<OrderItem>)
  {
    forall i, j :: 0 <= i < j < |items| ==> items[i].id < items[j].id
  }

  /** Listing a map whose entries carry their own key gives ascending ids in `[lo, hi)`. */
  lemma {:induction false} AscendingItemIds(m: map<int, OrderItem>, lo: int, hi: int)
    requires forall k :: k in m ==> m[k].id == k
    ensures IdsIncrease(Ascending(m, lo, hi))
    ensures forall i :: 0 <= i < |Ascending(m, lo, hi)| ==> lo <= Ascending(m, lo, hi)[i].id < hi
    decreases hi - lo
  {
    if lo < hi {
      AscendingItemIds(m, lo, hi - 1);
      var pre := Ascending(m, lo, hi - 1);
      if hi - 1 in m {
        var r := pre + [m[hi - 1]];
        assert Ascending(m, lo, hi) == r;
        forall i | 0 <= i < |r| ensures lo <= r[i].id < hi {
          if i < |pre| {
            assert r[i] == pre[i];
          }
        }
        forall i, j | 0 <= i < j < |r| ensures r[i].id < r[j].id {
          assert r[i] == pre[i];
          if j < |pre| {
            assert r[j] == pre[j];
          }
        }
      } else {
        assert Ascending(m, lo, hi) == pre;
      }
    }
  }

  lemma ItemListFilterIncreasing(s: Store, p: OrderItem -> bool)
    ensures Valid(s) ==> IdsIncrease(Seqs.Filter(ItemList(s), p))
  {
    if Valid(s) {
      AscendingItemIds(s.orderItems, 1, s.nextOrderItemId);
      FilterIdsIncrease(ItemList(s), p);
    }
  }

  /** A filter keeps ids ascending. */
  lemma {:induction false} FilterIdsIncrease(items: seq<OrderItem>, p: OrderItem -> bool)
    requires IdsIncrease(items)
    ensures IdsIncrease(Seqs.Filter(items, p))
    decreases |items|
  {
    if |items| > 0 {
      var t := items[1..];
      TailIdsAbove(items);
      FilterIdsIncrease(t, p);
      var ft := Seqs.Filter(t, p);
      assert forall i :: 0 <= i < |ft| ==> ft[i] in t;
      if p(items[0]) {
        ConsIdsIncrease(items[0], ft);
        assert Seqs.Filter(items, p) == [items[0]] + ft;
      } else {
        assert Seqs.Filter(items, p) == ft;
      }
    }
  }

  /** The tail of an ascending listing is ascending and above its head. */
  lemma TailIdsAbove(items: seq<OrderItem>)
    requires IdsIncrease(items) && |items| > 0
    ensures IdsIncrease(items[1..])
    ensures forall x :: x in items[1..] ==> items[0].id < x.id
  {
    var t := items[1..];
    forall i, j | 0 <= i < j < |t| ensures t[i].id < t[j].id {
      assert t[i] == items[i + 1] && t[j] == items[j + 1];
    }
    forall x | x in t ensures items[0].id < x.id {
      var k :| 0 <= k < |t| && t[k] == x;
      assert t[k] == items[k + 1];
    }
  }

  lemma ConsIdsIncrease(x: OrderItem, rest: seq<OrderItem>)
    requires IdsIncrease(rest) && forall i :: 0 <= i < |rest| ==> x.id < rest[i].id
    ensures IdsIncrease([x] + rest)
  {
    var r := [x] + rest;
    forall i, j | 0 <= i < j < |r| ensures r[i].id < r[j].id {
      assert r[j] == rest[j - 1];
      if i > 0 {
        assert r[i] == rest[i - 1];
      }
    }
  }

  /** Creation of an order item under the next item id. The `|| 0` fallbacks
      leave every number as it is and only turn an absent one into 0. */
  function CreateOrderItem(s: Store, ins: InsertOrderItem): (r: Step<OrderItem>)
    ensures r.value.id == s.nextOrderItemId && r.store.nextOrderItemId == s.nextOrderItemId + 1
    ensures r.value.orderId == ins.orderId.GetOr(0) && r.value.menuItemId == ins.menuItemId.GetOr(0)
    ensures r.value.quantity == ins.quantity && r.value.price == ins.price && r.value.itemName == ins.itemName
    ensures r.store == s.(orderItems := s.orderItems[r.value.id := r.value], nextOrderItemId := s.nextOrderItemId + 1)
    ensures Valid(s) && ins.orderId.GetOr(0) < s.nextOrderId ==> Valid(r.store) && r.value.id !in s.orderItems
  {
    var item := OrderItem(
      id := s.nextOrderItemId,
      orderId := OrNumber(ins.orderId, 0),
      menuItemId := OrNumber(ins.menuItemId, 0),
      quantity := ins.quantity,
      price := ins.price,
      itemName := ins.itemName);
    Step(s.(orderItems := s.orderItems[item.id := item], nextOrderItemId := s.nextOrderItemId + 1), item)
  }

  // ---------------------------------------------------------------------------
  // Deleting orders with their items

  /** The ids of the stored orders that `doomed` selects. */
  function DoomedIds(s: Store, doomed: Order -> bool): set<int>
  {
    set id | id in s.orders && doomed(s.orders[id])
  }

  /** Deletes every order `doomed` selects and every item of a deleted order. */
  function RemoveOrders(s: Store, doomed: Order -> bool): (r: Store)
    ensures forall id :: id in r.orders <==> id in s.orders && !doomed(s.orders[id])
    ensures forall id :: id in r.orders ==> r.orders[id] == s.orders[id]
    ensures forall k :: k in r.orderItems <==> k in s.orderItems && s.orderItems[k].orderId !in DoomedIds(s, doomed)
    ensures forall k :: k in r.orderItems ==> r.orderItems[k] == s.orderItems[k]
    ensures r.pauseSettings == s.pauseSettings
    ensures r.nextOrderId == s.nextOrderId && r.nextOrderItemId == s.nextOrderItemId
    ensures r.nextPauseSettingsId == s.nextPauseSettingsId
    ensures Valid(s) ==> Valid(r)
  {
    var gone := DoomedIds(s, doomed);
    s.(orders := map id | id in s.orders && !doomed(s.orders[id]) :: s.orders[id],
       orderItems := map k | k in s.orderItems && s.orderItems[k].orderId !in gone :: s.orderItems[k])
  }

  predicate IsCompleted(o: Order)
  {
    o.status == StatusCompleted
  }

  /** "Reset completed": every completed order goes, with its items. */
  function ResetCompletedOrders(s: Store): (r: Store)
    ensures forall id :: id in r.orders ==> r.orders[id].status != StatusCompleted
    ensures forall id :: id in s.orders && s.orders[id].status != StatusCompleted ==>
      id in r.orders && r.orders[id] == s.orders[id]
    ensures r.orders.Keys <= s.orders.Keys
    ensures forall k, id :: k in r.orderItems && id in s.orders && s.orders[id].status == StatusCompleted ==>
      r.orderItems[k].orderId != id
    ensures forall k :: k in s.orderItems ==>
      (k in r.orderItems <==> !(s.orderItems[k].orderId in s.orders && s.orders[s.orderItems[k].orderId].status == StatusCompleted))
    ensures forall k :: k in r.orderItems ==> k in s.orderItems && r.orderItems[k] == s.orderItems[k]
    ensures r.pauseSettings == s.pauseSettings
    ensures r.nextOrderId == s.nextOrderId && r.nextOrderItemId == s.nextOrderItemId
    ensures r.nextPauseSettingsId == s.nextPauseSettingsId
    ensures Valid(s) ==> Valid(r)
  {
    RemoveOrders(s, IsCompleted)
  }

  /** Retention: every order created before `cutoff` goes, with its items. */
  function CleanupOldData(s: Store, cutoff: Millis): (r: Store)
    ensures forall id :: id in r.orders ==> r.orders[id].createdAt >= cutoff
    ensures forall id :: id in s.orders && s.orders[id].createdAt >= cutoff ==>
      id in r.orders && r.orders[id] == s.orders[id]
    ensures r.orders.Keys <= s.orders.Keys
    ensures forall k, id :: k in r.orderItems && id in s.orders && s.orders[id].createdAt < cutoff ==>
      r.orderItems[k].orderId != id
    ensures forall k :: k in s.orderItems ==>
      (k in r.orderItems <==> !(s.orderItems[k].orderId in s.orders && s.orders[s.orderItems[k].orderId].createdAt < cutoff))
    ensures forall k :: k in r.orderItems ==> k in s.orderItems && r.orderItems[k] == s.orderItems[k]
    ensures r.pauseSettings == s.pauseSettings
    ensures r.nextOrderId == s.nextOrderId && r.nextOrderItemId == s.nextOrderItemId
    ensures r.nextPauseSettingsId == s.nextPauseSettingsId
    ensures Valid(s) ==> Valid(r)
  {
    RemoveOrders(s, (o: Order) => o.createdAt < cutoff)
  }
}
