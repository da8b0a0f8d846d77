/** End-to-end runs of the lifecycle: an order taken through the three staff
    steps, a paused channel turning an order away until the pause runs out,
    and a cancellation refused once the order is ready. */
module Scenarios {
  import opened Wrappers
  import opened Schema
  import opened Storage
  import opened PauseControl
  import opened Routes
  import StaffWorkflow
  import CustomerOrder

  /** A restaurant order for table 5 with two lines. */
  function TableFiveOrder(): InsertOrder
  {
    InsertOrder(None, "5", Restaurant, Some(StatusPending), 45000,
                Lines([LineItem(1, "Paneer Tikka", 25000, 1), LineItem(2, "Lassi", 10000, 2)]),
                None, None, None)
  }

  /** Placed, delivered, paid by UPI and completed: each step leaves the
      expected status and payment, the completion is stamped, and the store
      stays consistent throughout. */
  lemma PlaceThenProgress(s: Store, t0: Millis, t1: Millis, t2: Millis, t3: Millis)
    requires Valid(s) && StaffWorkflow.Consistent(s)
    ensures var placed := PostOrder(s, Some(TableFiveOrder()), t0);
      var id := s.nextOrderId;
      var ready := PutOrder(placed.store, id, OrderPatch(Some(StatusReady), None, None, None), t1);
      var paid := PutPayment(ready.store, id, Some(MethodUpi), PaymentPaid, t2);
      var done := PutOrder(paid.store, id, OrderPatch(Some(StatusCompleted), None, None, None), t3);
      && placed.response.Created?
      && placed.response.order.status == StatusPending && placed.response.order.paymentStatus == PaymentPending
      && id in ready.store.orders && ready.store.orders[id].status == StatusReady
      && id in paid.store.orders && paid.store.orders[id].paymentStatus == PaymentPaid
      && id in done.store.orders && done.store.orders[id].status == StatusCompleted
      && done.store.orders[id].completedAt == Some(t3)
      && StaffWorkflow.Consistent(done.store)
  {
    var placed := PostOrder(s, Some(TableFiveOrder()), t0);
    var id := s.nextOrderId;
    Placed(s, t0);
    var ready := PutOrder(placed.store, id, OrderPatch(Some(StatusReady), None, None, None), t1);
    ReadyStep(placed.store, id, t1);
    var paid := PutPayment(ready.store, id, Some(MethodUpi), PaymentPaid, t2);
    PaidStep(ready.store, id, t2);
    CompleteStep(paid.store, id, t3);
  }

  /** The table-5 order is stored pending and unpaid, and the store stays
      consistent. */
  lemma Placed(s: Store, t0: Millis)
    requires Valid(s) && StaffWorkflow.Consistent(s)
    ensures var placed := PostOrder(s, Some(TableFiveOrder()), t0);
      var id := s.nextOrderId;
      && placed.response.Created?
      && placed.response.order.status == StatusPending && placed.response.order.paymentStatus == PaymentPending
      && id in placed.store.orders && placed.store.orders[id] == placed.response.order
      && placed.response.order.completedAt.None?
      && Valid(placed.store) && StaffWorkflow.Consistent(placed.store)
  {
    StaffWorkflow.PlacementKeepsConsistent(s, TableFiveOrder(), t0);
  }

  lemma ReadyStep(st: Store, id: int, t: Millis)
    requires Valid(st) && StaffWorkflow.Consistent(st) && id in st.orders
    requires st.orders[id].status == StatusPending && st.orders[id].completedAt.None?
    ensures var r := PutOrder(st, id, OrderPatch(Some(StatusReady), None, None, None), t);
      && id in r.store.orders && r.store.orders[id].status == StatusReady
      && r.store.orders[id].completedAt.None?
      && Valid(r.store) && StaffWorkflow.Consistent(r.store)
  {
    StaffWorkflow.SettledAfter(st, st.orders[id], StaffWorkflow.SetStatus(id, StatusReady), t);
  }

  lemma PaidStep(st: Store, id: int, t: Millis)
    requires Valid(st) && StaffWorkflow.Consistent(st) && id in st.orders
    requires st.orders[id].status == StatusReady && st.orders[id].completedAt.None?
    ensures var r := PutPayment(st, id, Some(MethodUpi), PaymentPaid, t);
      && id in r.store.orders && r.store.orders[id].status == StatusReady
      && r.store.orders[id].paymentStatus == PaymentPaid
      && r.store.orders[id].completedAt.None?
      && Valid(r.store) && StaffWorkflow.Consistent(r.store)
  {
  }

  lemma CompleteStep(st: Store, id: int, t: Millis)
    requires Valid(st) && StaffWorkflow.Consistent(st) && id in st.orders
    requires st.orders[id].status == StatusReady && st.orders[id].paymentStatus == PaymentPaid
    requires st.orders[id].completedAt.None?
    ensures var r := PutOrder(st, id, OrderPatch(Some(StatusCompleted), None, None, None), t);
      && id in r.store.orders && r.store.orders[id].status == StatusCompleted
      && r.store.orders[id].completedAt == Some(t)
      && Valid(r.store) && StaffWorkflow.Consistent(r.store)
  {
    StaffWorkflow.SettledAfter(st, st.orders[id], StaffWorkflow.SetStatus(id, StatusCompleted), t);
  }

  /** A bar pause of 30 minutes turns a bar order away at once; 31 minutes
      later the same order is taken and the channel reads as not paused. */
  lemma PausedChannelRejects(s: Store, ins: InsertOrder, t0: Millis)
    requires Valid(s) && ins.serviceType == Bar && ins.items.Lines?
    ensures var paused := PostPause(s, Bar, true, Some(30), Some("Rush"), t0).store;
      var first := PostOrderGated(paused, Some(ins), t0);
      var later := t0 + 31 * MillisPerMinute;
      var second := PostOrderGated(first.store, Some(ins), later);
      && first.response.ServiceUnavailable? && first.store == paused
      && second.response.Created?
      && CheckPaused(second.store, Bar, later).value == NotPaused
  {
    var paused := PostPause(s, Bar, true, Some(30), Some("Rush"), t0).store;
    var later := t0 + 31 * MillisPerMinute;
    PauseThenCheck(s, Bar, 30, "Rush", t0, t0);
    Blocked(paused, ins, t0);
    var first := PostOrderGated(paused, Some(ins), t0);
    assert first.store == paused;
    PauseRunsOut(s, t0);
    Resumed(paused, ins, later);
    assert PostOrderGated(first.store, Some(ins), later) == PostOrderGated(paused, Some(ins), later);
  }

  /** While the check reads paused, an order is turned away and nothing is stored. */
  lemma Blocked(st: Store, ins: InsertOrder, now: Millis)
    requires CheckPaused(st, ins.serviceType, now).value.Paused?
    ensures PostOrderGated(st, Some(ins), now) == Reply(st, ServiceUnavailable(CheckPaused(st, ins.serviceType, now).value), None)
  {
  }

  /** A 30-minute bar pause set at `t0` reads as not paused 31 minutes later. */
  lemma PauseRunsOut(s: Store, t0: Millis)
    requires Valid(s)
    ensures var paused := PostPause(s, Bar, true, Some(30), Some("Rush"), t0).store;
      Valid(paused) && CheckPaused(paused, Bar, t0 + 31 * MillisPerMinute).value == NotPaused
  {
    var v := PostPause(s, Bar, true, Some(30), Some("Rush"), t0).response.body.settings;
    assert v.pausedAt == Some(t0) && v.pauseDurationMinutes == 30;
    assert Deadline(v.pausedAt.value, v.pauseDurationMinutes) < t0 + 31 * MillisPerMinute;
  }

  /** Once the check reads not paused, an order is taken and the channel
      still reads not paused afterwards. */
  lemma Resumed(st: Store, ins: InsertOrder, later: Millis)
    requires Valid(st) && ins.items.Lines?
    requires CheckPaused(st, ins.serviceType, later).value == NotPaused
    ensures var second := PostOrderGated(st, Some(ins), later);
      && second.response.Created?
      && CheckPaused(second.store, ins.serviceType, later).value == NotPaused
  {
    var check := CheckPaused(st, ins.serviceType, later);
    var second := PostOrderGated(st, Some(ins), later);
    assert second == PostOrder(check.store, Some(ins), later);
    NotPausedIsFinal(st, ins.serviceType, later, later);
    assert GetPauseSettings(second.store, ins.serviceType) == GetPauseSettings(check.store, ins.serviceType);
  }

  /** Once an order is ready, cancelling it is refused and it stays ready. */
  lemma CancelBlockedAfterReady(s: Store, ins: InsertOrder, t0: Millis, t1: Millis, t2: Millis, reason: Option<string>)
    requires Valid(s) && ins.items.Lines?
    ensures var placed := PostOrder(s, Some(ins), t0);
      var id := s.nextOrderId;
      var ready := PutOrder(placed.store, id, OrderPatch(Some(StatusReady), None, None, None), t1);
      var cancel := PutCancel(ready.store, id, reason, t2);
      && cancel.response == NotFound(NotCancellable) && cancel.event.None?
      && id in cancel.store.orders && cancel.store.orders[id].status == StatusReady
  {
    var placed := PostOrder(s, Some(ins), t0);
    var id := s.nextOrderId;
    assert id in placed.store.orders;
    var ready := PutOrder(placed.store, id, OrderPatch(Some(StatusReady), None, None, None), t1);
    MarkedReady(placed.store, id, t1);
    CancelRefused(ready.store, id, reason, t2);
  }

  /** The permissive update to ready leaves the order ready. */
  lemma MarkedReady(st: Store, id: int, t: Millis)
    requires id in st.orders
    ensures var r := PutOrder(st, id, OrderPatch(Some(StatusReady), None, None, None), t);
      id in r.store.orders && r.store.orders[id].status == StatusReady
  {
  }

  /** A ready order is not cancellable: the request is refused and changes nothing. */
  lemma CancelRefused(st: Store, id: int, reason: Option<string>, t: Millis)
    requires id in st.orders && st.orders[id].status == StatusReady
    ensures PutCancel(st, id, reason, t) == Reply(st, NotFound(NotCancellable), None)
  {
  }
}
