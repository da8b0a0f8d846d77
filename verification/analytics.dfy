/** The sales and payment reports. Both first apply the retention cleanup,
    then select the orders created inside the inclusive window [start, end]:
    completed orders (optionally of one channel) for sales, paid orders for
    payments. */
module Analytics {
  import opened Wrappers
  import opened Schema
  import opened Storage
  import Seqs

  /** Per-item totals over the selected orders' items. */
  datatype ItemStat = ItemStat(itemName: string, quantity: int, revenue: Cents)

  datatype SalesReport = SalesReport(
    totalSales: Cents,
    orderCount: nat,
    averageOrder: real,
    topItems: seq<ItemStat>)

  datatype PaymentReport = PaymentReport(cash: Cents, upi: Cents, card: Cents, total: Cents)

  /** How many item totals the sales report keeps. */
  const TopItemsLimit: nat := 10

  function Amount(o: Order): Cents
  {
    o.totalAmount
  }

  predicate InWindow(o: Order, start: Millis, end: Millis)
  {
    start <= o.createdAt <= end
  }

  predicate CompletedIn(o: Order, start: Millis, end: Millis)
  {
    InWindow(o, start, end) && o.status == StatusCompleted
  }

  function OfService(serviceType: string): Order -> bool
  {
    (o: Order) => o.serviceType == serviceType
  }

  function CompletedWithin(start: Millis, end: Millis): Order -> bool
  {
    (o: Order) => CompletedIn(o, start, end)
  }

  /** An order the sales report counts. */
  predicate Counted(o: Order, start: Millis, end: Millis, serviceType: Option<string>)
  {
    CompletedIn(o, start, end) && (TruthyText(serviceType) ==> o.serviceType == serviceType.value)
  }

  /** The completed orders in the window, then restricted to the channel when one is given. */
  function SalesOrders(s: Store, start: Millis, end: Millis, serviceType: Option<string>): seq<Order>
  {
    var completed := Seqs.Filter(OrderList(s), CompletedWithin(start, end));
    if TruthyText(serviceType) then Seqs.Filter(completed, OfService(serviceType.value)) else completed
  }

  /** The sales order count is the number of stored orders the report counts. */
  lemma SalesOrdersCount(s: Store, start: Millis, end: Millis, serviceType: Option<string>)
    ensures |SalesOrders(s, start, end, serviceType)|
         == |set id | id in s.orders && 1 <= id < s.nextOrderId && Counted(s.orders[id], start, end, serviceType)|
  {
    var counted := (o: Order) => Counted(o, start, end, serviceType);
    if TruthyText(serviceType) {
      Seqs.FilterFilter(OrderList(s), CompletedWithin(start, end), OfService(serviceType.value), counted);
    } else {
      Seqs.FilterExt(OrderList(s), CompletedWithin(start, end), counted);
    }
    assert SalesOrders(s, start, end, serviceType) == Seqs.Filter(OrderList(s), counted);
    CountAscending(s.orders, 1, s.nextOrderId, counted);
    assert KeysWhere(s.orders, 1, s.nextOrderId, counted)
        == (set id | id in s.orders && 1 <= id < s.nextOrderId && Counted(s.orders[id], start, end, serviceType));
  }

  // ---------------------------------------------------------------------------
  // Top items

  function ItemQuantity(it: OrderItem): int
  {
    it.quantity
  }

  function ItemRevenue(it: OrderItem): Cents
  {
    it.price * it.quantity
  }

  function Named(name: string): OrderItem -> bool
  {
    (it: OrderItem) => it.itemName == name
  }

  function Quantity(e: ItemStat): int
  {
    e.quantity
  }

  /** The items of the given orders, order by order. */
  function ItemsOf(s: Store, orders: seq<Order>): seq<OrderItem>
  {
    if |orders| == 0 then [] else GetOrderItems(s, orders[0].id) + ItemsOf(s, orders[1..])
  }

  /** The set of item names occurring in `items`. */
  function NameSet(items: seq<OrderItem>): set<string>
  {
    set k | 0 <= k < |items| :: items[k].itemName
  }

  /** Position of the first item named `name`, or -1 when no item is. */
  function FirstIndex(items: seq<OrderItem>, name: string): (k: int)
    ensures -1 <= k < |items|
    ensures 0 <= k ==> items[k].itemName == name && forall m :: 0 <= m < k ==> items[m].itemName != name
    ensures k < 0 ==> forall m :: 0 <= m < |items| ==> items[m].itemName != name
  {
    if |items| == 0 then -1
    else if items[0].itemName == name then 0
    else
      var k := FirstIndex(items[1..], name);
      if k < 0 then -1 else k + 1
  }

  /** Appending an item moves no first occurrence; its own name, when new,
      first occurs at the end. */
  lemma FirstIndexSnoc(pre: seq<OrderItem>, it: OrderItem, name: string)
    ensures FirstIndex(pre + [it], name) ==
      if 0 <= FirstIndex(pre, name) then FirstIndex(pre, name)
      else if it.itemName == name then |pre| else -1
  {
    var items := pre + [it];
    assert forall m :: 0 <= m < |pre| ==> items[m] == pre[m];
    assert items[|pre|] == it;
  }

  /** The distinct item names in order of first occurrence. */
  function FirstSeen(items: seq<OrderItem>): (r: seq<string>)
    ensures forall i, j :: 0 <= i < j < |r| ==> r[i] != r[j]
    ensures forall n :: n in r <==> n in NameSet(items)
  {
    if |items| == 0 then []
    else
      var pre := items[..|items| - 1];
      var name := items[|items| - 1].itemName;
      assert NameSet(items) == NameSet(pre) + {name} by {
        assert forall k :: 0 <= k < |pre| ==> pre[k] == items[k];
      }
      var seen := FirstSeen(pre);
      if name in seen then seen else seen + [name]
  }

  /** `names` occur in `items`, listed in the order of their first occurrence. */
  predicate InFirstOccurrenceOrder(items: seq<OrderItem>, names: seq<string>)
  {
    forall i, j :: 0 <= i < j < |names| ==> 0 <= FirstIndex(items, names[i]) < FirstIndex(items, names[j])
  }

  /** The names are listed in the order of their first occurrence in the items. */
  lemma {:induction false} FirstSeenInOrder(items: seq<OrderItem>)
    ensures InFirstOccurrenceOrder(items, FirstSeen(items))
    decreases |items|
  {
    if |items| > 0 {
      var pre := items[..|items| - 1];
      var it := items[|items| - 1];
      assert items == pre + [it];
      var seen := FirstSeen(pre);
      FirstSeenInOrder(pre);
      FirstSeenStep(pre, it, seen);
      assert FirstSeen(items) == if it.itemName in seen then seen else seen + [it.itemName];
    } else {
      assert FirstSeen(items) == [];
      assert |FirstSeen(items)| == 0;
    }
  }

  /** There are as many listed names as distinct names. */
  lemma {:induction false} FirstSeenCount(items: seq<OrderItem>)
    ensures |FirstSeen(items)| == |NameSet(items)|
    decreases |items|
  {
    if |items| > 0 {
      var pre := items[..|items| - 1];
      var name := items[|items| - 1].itemName;
      assert NameSet(items) == NameSet(pre) + {name} by {
        assert forall k :: 0 <= k < |pre| ==> pre[k] == items[k];
      }
      var seen := FirstSeen(pre);
      FirstSeenCount(pre);
      assert FirstSeen(items) == if name in seen then seen else seen + [name];
      if name in seen {
        assert name in NameSet(pre);
        assert NameSet(items) == NameSet(pre);
      } else {
        assert name !in NameSet(pre);
        assert |NameSet(pre) + {name}| == |NameSet(pre)| + 1;
      }
    }
  }

  /** One step of `FirstSeen`: the names of `pre` in first-occurrence order,
      followed by the appended item's name when it is new, are in
      first-occurrence order in the longer list. */
  lemma FirstSeenStep(pre: seq<OrderItem>, it: OrderItem, seen: seq<string>)
    requires forall n :: n in seen <==> n in NameSet(pre)
    requires InFirstOccurrenceOrder(pre, seen)
    ensures InFirstOccurrenceOrder(pre + [it], if it.itemName in seen then seen else seen + [it.itemName])
  {
    var r := if it.itemName in seen then seen else seen + [it.itemName];
    forall i | 0 <= i < |seen|
      ensures FirstIndex(pre + [it], seen[i]) == FirstIndex(pre, seen[i]) >= 0
    {
      assert seen[i] in seen;
      var k :| 0 <= k < |pre| && pre[k].itemName == seen[i];
      FirstIndexSnoc(pre, it, seen[i]);
    }
    if it.itemName !in seen {
      FirstIndexSnoc(pre, it, it.itemName);
      assert FirstIndex(pre, it.itemName) < 0;
      forall i, j | 0 <= i < j < |r|
        ensures 0 <= FirstIndex(pre + [it], r[i]) < FirstIndex(pre + [it], r[j])
      {
        assert r[i] == seen[i];
        if j < |seen| {
          assert r[j] == seen[j];
        }
      }
    }
  }

  /** Position of the entry for `name`, or -1. */
  function IndexOfName(stats: seq<ItemStat>, name: string): (i: int)
    ensures -1 <= i < |stats|
    ensures 0 <= i ==> stats[i].itemName == name
    ensures i < 0 ==> forall j :: 0 <= j < |stats| ==> stats[j].itemName != name
  {
    if |stats| == 0 then -1
    else if stats[0].itemName == name then 0
    else
      var j := IndexOfName(stats[1..], name);
      if j < 0 then -1 else j + 1
  }

  /** One step of the per-name tally: add to the entry of the item's name,
      or append a new entry. */
  function AddStat(stats: seq<ItemStat>, it: OrderItem): seq<ItemStat>
  {
    var i := IndexOfName(stats, it.itemName);
    if i < 0 then stats + [ItemStat(it.itemName, it.quantity, ItemRevenue(it))]
    else stats[i := stats[i].(quantity := stats[i].quantity + it.quantity, revenue := stats[i].revenue + ItemRevenue(it))]
  }

  /** The per-name tally, one entry per distinct name in first-seen order. */
  function Tally(items: seq<OrderItem>): (r: seq<ItemStat>)
    ensures |r| == |FirstSeen(items)|
    ensures forall i :: 0 <= i < |r| ==> r[i].itemName == FirstSeen(items)[i]
  {
    if |items| == 0 then []
    else AddStat(Tally(items[..|items| - 1]), items[|items| - 1])
  }

  /** Sum of quantities of the items with a given name. */
  function QuantityOf(items: seq<OrderItem>, name: string): int
  {
    Seqs.SumBy(Seqs.Filter(items, Named(name)), ItemQuantity)
  }

  /** Sum of price times quantity of the items with a given name. */
  function RevenueOf(items: seq<OrderItem>, name: string): int
  {
    Seqs.SumBy(Seqs.Filter(items, Named(name)), ItemRevenue)
  }

  /** Appending an item adds its contribution to its own name's sums only. */
  lemma SumsStep(pre: seq<OrderItem>, it: OrderItem, name: string)
    ensures QuantityOf(pre + [it], name) == QuantityOf(pre, name) + (if it.itemName == name then it.quantity else 0)
    ensures RevenueOf(pre + [it], name) == RevenueOf(pre, name) + (if it.itemName == name then ItemRevenue(it) else 0)
  {
    Seqs.FilterConcat(pre, [it], Named(name));
    Seqs.FilterSingle(it, Named(name));
    Seqs.SumByConcat(Seqs.Filter(pre, Named(name)), Seqs.Filter([it], Named(name)), ItemQuantity);
    Seqs.SumByConcat(Seqs.Filter(pre, Named(name)), Seqs.Filter([it], Named(name)), ItemRevenue);
  }

  /** A name that does not occur contributes nothing. */
  lemma SumsAbsent(items: seq<OrderItem>, name: string)
    requires name !in NameSet(items)
    ensures QuantityOf(items, name) == 0 && RevenueOf(items, name) == 0
  {
  }

  /** Each tally entry holds the total quantity and revenue of its name. */
  lemma {:induction false} TallySums(items: seq<OrderItem>)
    ensures forall i :: 0 <= i < |Tally(items)| ==>
      Tally(items)[i].quantity == QuantityOf(items, Tally(items)[i].itemName)
      && Tally(items)[i].revenue == RevenueOf(items, Tally(items)[i].itemName)
    decreases |items|
  {
    if |items| > 0 {
      var pre := items[..|items| - 1];
      var it := items[|items| - 1];
      assert items == pre + [it];
      TallySums(pre);
      var before, after := Tally(pre), Tally(items);
      forall i | 0 <= i < |after|
        ensures after[i].quantity == QuantityOf(items, after[i].itemName)
        ensures after[i].revenue == RevenueOf(items, after[i].itemName)
      {
        TallyEntry(pre, it, items, i);
      }
    }
  }

  /** One entry of the tally after an item is added, given the tally before. */
  lemma TallyEntry(pre: seq<OrderItem>, it: OrderItem, items: seq<OrderItem>, i: int)
    requires items == pre + [it]
    requires forall k :: 0 <= k < |Tally(pre)| ==>
      Tally(pre)[k].quantity == QuantityOf(pre, Tally(pre)[k].itemName)
      && Tally(pre)[k].revenue == RevenueOf(pre, Tally(pre)[k].itemName)
    requires 0 <= i < |Tally(items)|
    ensures Tally(items)[i].quantity == QuantityOf(items, Tally(items)[i].itemName)
    ensures Tally(items)[i].revenue == RevenueOf(items, Tally(items)[i].itemName)
  {
    var before, after := Tally(pre), Tally(items);
    assert items[..|items| - 1] == pre;
    assert after == AddStat(before, it);
    var name := after[i].itemName;
    var idx := IndexOfName(before, it.itemName);
    SumsStep(pre, it, name);
    if idx < 0 {
      assert after == before + [ItemStat(it.itemName, it.quantity, ItemRevenue(it))];
      if i == |before| {
        assert it.itemName !in FirstSeen(pre);
        SumsAbsent(pre, it.itemName);
      } else {
        assert after[i] == before[i];
      }
    } else {
      assert |after| == |before|;
      if i != idx {
        assert after[i] == before[i];
        assert before[i].itemName == FirstSeen(pre)[i] && before[idx].itemName == FirstSeen(pre)[idx];
      }
    }
  }

  /** The first `TopItemsLimit` entries by non-increasing quantity. */
  function TopItems(stats: seq<ItemStat>): (r: seq<ItemStat>)
    ensures |r| == if |stats| < TopItemsLimit then |stats| else TopItemsLimit
    ensures Seqs.SortedDesc(r, Quantity)
    ensures forall i :: 0 <= i < |r| ==> r[i] in stats
    ensures forall e, i :: e in stats && e !in r && 0 <= i < |r| ==> e.quantity <= r[i].quantity
  {
    var sorted := Seqs.SortDesc(stats, Quantity);
    var r := Seqs.Take(sorted, TopItemsLimit);
    TopOfSorted(stats, sorted, r);
    r
  }

  /** A prefix of a descending sort is sorted, drawn from the input, and at
      least as large as every entry it leaves out. */
  lemma TopOfSorted(stats: seq<ItemStat>, sorted: seq<ItemStat>, r: seq<ItemStat>)
    requires Seqs.SortedDesc(sorted, Quantity) && multiset(sorted) == multiset(stats)
    requires r == Seqs.Take(sorted, TopItemsLimit)
    ensures Seqs.SortedDesc(r, Quantity)
    ensures forall i :: 0 <= i < |r| ==> r[i] in stats
    ensures forall e, i :: e in stats && e !in r && 0 <= i < |r| ==> e.quantity <= r[i].quantity
  {
    Seqs.SameElements(sorted, stats);
    forall i | 0 <= i < |r| ensures r[i] in stats {
      assert r[i] == sorted[i];
    }
    forall e, i | e in stats && e !in r && 0 <= i < |r| ensures e.quantity <= r[i].quantity {
      var j :| 0 <= j < |sorted| && sorted[j] == e;
      assert r[i] == sorted[i];
    }
  }

  /** Entries with equal quantities keep their tally order, which is the
      first-seen order of their names: the kept entries are a prefix of a
      stable sort of the tally. */
  lemma TopItemsStable(stats: seq<ItemStat>, q: int)
    ensures TopItems(stats) <= Seqs.SortDesc(stats, Quantity)
    ensures Seqs.KeyFilter(Seqs.SortDesc(stats, Quantity), Quantity, q) == Seqs.KeyFilter(stats, Quantity, q)
  {
    Seqs.SortDescStable(stats, Quantity, q);
  }

  /** Keeping the top entries of a tally with distinct names keeps the names distinct. */
  lemma TopItemsDistinctNames(stats: seq<ItemStat>, top: seq<ItemStat>)
    requires forall i, j :: 0 <= i < j < |stats| ==> stats[i].itemName != stats[j].itemName
    requires top == TopItems(stats)
    ensures forall i, j :: 0 <= i < j < |top| ==> top[i].itemName != top[j].itemName
  {
    var sorted := Seqs.SortDesc(stats, Quantity);
    assert Seqs.Distinct(stats);
    Seqs.SortDescDistinct(stats, Quantity);
    forall i, j | 0 <= i < j < |top| ensures top[i].itemName != top[j].itemName {
      assert top[i] == sorted[i] && top[j] == sorted[j];
      var a :| 0 <= a < |stats| && stats[a] == top[i];
      var b :| 0 <= b < |stats| && stats[b] == top[j];
    }
  }

  /** Some kept entry carries `name`. */
  predicate Kept(top: seq<ItemStat>, name: string)
  {
    exists j :: 0 <= j < |top| && top[j].itemName == name
  }

  /** The kept entries of a tally have distinct names, each occurring in the
      items, with that name's total quantity and revenue. */
  lemma TopItemsOfTally(items: seq<OrderItem>, top: seq<ItemStat>)
    ensures top == TopItems(Tally(items)) ==>
      forall i, j :: 0 <= i < j < |top| ==> top[i].itemName != top[j].itemName
    ensures top == TopItems(Tally(items)) ==>
      forall i :: 0 <= i < |top| ==>
        && top[i].itemName in NameSet(items)
        && top[i].quantity == QuantityOf(items, top[i].itemName)
        && top[i].revenue == RevenueOf(items, top[i].itemName)
  {
    if top != TopItems(Tally(items)) {
      return;
    }
    var stats := Tally(items);
    TallySums(items);
    TopItemsDistinctNames(stats, top);
    forall i | 0 <= i < |top|
      ensures top[i].itemName in NameSet(items)
      ensures top[i].quantity == QuantityOf(items, top[i].itemName)
      ensures top[i].revenue == RevenueOf(items, top[i].itemName)
    {
      var a :| 0 <= a < |stats| && stats[a] == top[i];
      assert stats[a].itemName in FirstSeen(items);
    }
  }

  /** Ten names are kept, or all when fewer occur, and a name left out sold
      no more units than any kept one. */
  lemma TopItemsLeftOut(items: seq<OrderItem>, top: seq<ItemStat>)
    ensures top == TopItems(Tally(items)) ==>
      |top| == if |NameSet(items)| < TopItemsLimit then |NameSet(items)| else TopItemsLimit
    ensures top == TopItems(Tally(items)) ==>
      forall n, i :: n in NameSet(items) && !Kept(top, n) && 0 <= i < |top| ==> QuantityOf(items, n) <= top[i].quantity
  {
    if top != TopItems(Tally(items)) {
      return;
    }
    FirstSeenCount(items);
    forall n, i | n in NameSet(items) && !Kept(top, n) && 0 <= i < |top|
      ensures QuantityOf(items, n) <= top[i].quantity
    {
      LeftOutSoldLess(items, top, n, i);
    }
  }

  /** One name left out against one kept entry. */
  lemma LeftOutSoldLess(items: seq<OrderItem>, top: seq<ItemStat>, n: string, i: int)
    requires top == TopItems(Tally(items))
    requires n in NameSet(items) && !Kept(top, n) && 0 <= i < |top|
    ensures QuantityOf(items, n) <= top[i].quantity
  {
    var stats := Tally(items);
    var a := EntryOfName(items, n);
    NotKeptNotIn(top, stats[a]);
    assert stats[a] in stats;
    assert stats[a].quantity <= top[i].quantity;
    TallySums(items);
  }

  /** Every occurring name has its tally entry. */
  lemma EntryOfName(items: seq<OrderItem>, n: string) returns (a: int)
    requires n in NameSet(items)
    ensures 0 <= a < |Tally(items)| && Tally(items)[a].itemName == n
  {
    assert n in FirstSeen(items);
    a :| 0 <= a < |FirstSeen(items)| && FirstSeen(items)[a] == n;
  }

  /** An entry whose name is not kept is not among the kept entries. */
  lemma NotKeptNotIn(top: seq<ItemStat>, e: ItemStat)
    requires !Kept(top, e.itemName)
    ensures e !in top
  {
  }

  /** The mean order value: 0 for no orders, otherwise total over count. */
  function Average(total: Cents, count: nat): (r: real)
    ensures count == 0 ==> r == 0.0
    ensures count > 0 ==> r * count as real == total as real
  {
    if count > 0 then total as real / count as real else 0.0
  }

  /** The figures of the sales report over the selected orders and their items. */
  function Report(orders: seq<Order>, items: seq<OrderItem>): (r: SalesReport)
    ensures r.orderCount == |orders|
    ensures r.orderCount == 0 ==> r.totalSales == 0 && r.averageOrder == 0.0
    ensures r.orderCount > 0 ==> r.averageOrder * r.orderCount as real == r.totalSales as real
    ensures Seqs.SortedDesc(r.topItems, Quantity)
    ensures |r.topItems| == if |NameSet(items)| < TopItemsLimit then |NameSet(items)| else TopItemsLimit
    ensures var top := r.topItems;
      && (forall i, j :: 0 <= i < j < |top| ==> top[i].itemName != top[j].itemName)
      && forall i :: 0 <= i < |top| ==>
        && top[i].itemName in NameSet(items)
        && top[i].quantity == QuantityOf(items, top[i].itemName)
        && top[i].revenue == RevenueOf(items, top[i].itemName)
    ensures forall n, i :: n in NameSet(items) && !Kept(r.topItems, n) && 0 <= i < |r.topItems| ==>
      QuantityOf(items, n) <= r.topItems[i].quantity
  {
    var total := Seqs.SumBy(orders, Amount);
    var top := TopItems(Tally(items));
    TopItemsOfTally(items, top);
    TopItemsLeftOut(items, top);
    SalesReport(total, |orders|, Average(total, |orders|), top)
  }

  /** The sales report, computed after the retention cleanup. */
  function SalesAnalytics(s: Store, start: Millis, end: Millis, serviceType: Option<string>, cutoff: Millis)
    : (r: Step<SalesReport>)
    ensures r.store == CleanupOldData(s, cutoff)
    ensures r.value.orderCount
         == |set id | id in r.store.orders && 1 <= id < r.store.nextOrderId
                      && Counted(r.store.orders[id], start, end, serviceType)|
    ensures r.value.totalSales == Seqs.SumBy(SalesOrders(r.store, start, end, serviceType), Amount)
    ensures r.value == Report(SalesOrders(r.store, start, end, serviceType),
                              ItemsOf(r.store, SalesOrders(r.store, start, end, serviceType)))
  {
    var cleaned := CleanupOldData(s, cutoff);
    var orders := SalesOrders(cleaned, start, end, serviceType);
    SalesOrdersCount(cleaned, start, end, serviceType);
    Step(cleaned, Report(orders, ItemsOf(cleaned, orders)))
  }

  /** Every stored order belongs to one of the two channels. */
  ghost predicate TwoChannels(s: Store)
  {
    forall id :: id in s.orders ==> s.orders[id].serviceType in {Restaurant, Bar}
  }

  /** Orders of two distinct channels split into the orders of each. */
  lemma {:induction false} SplitByChannel(l: seq<Order>, a: string, b: string)
    requires a != b
    requires forall o :: o in l ==> o.serviceType == a || o.serviceType == b
    ensures Seqs.SumBy(l, Amount) == Seqs.SumBy(Seqs.Filter(l, OfService(a)), Amount) + Seqs.SumBy(Seqs.Filter(l, OfService(b)), Amount)
    ensures |l| == |Seqs.Filter(l, OfService(a))| + |Seqs.Filter(l, OfService(b))|
    decreases |l|
  {
    if |l| > 0 {
      SplitByChannel(l[1..], a, b);
      var ha := if l[0].serviceType == a then [l[0]] else [];
      var hb := if l[0].serviceType == b then [l[0]] else [];
      Seqs.SumByConcat(ha, Seqs.Filter(l[1..], OfService(a)), Amount);
      Seqs.SumByConcat(hb, Seqs.Filter(l[1..], OfService(b)), Amount);
      assert Seqs.SumBy([l[0]], Amount) == Amount(l[0]) by {
        assert [l[0]][1..] == [];
      }
    }
  }

  /** With only the restaurant and bar channels in the store, the unrestricted
      sales figures are the sums of the two channels' figures. */
  lemma ChannelSalesAddUp(s: Store, start: Millis, end: Millis, cutoff: Millis)
    requires TwoChannels(s)
    ensures var all := SalesAnalytics(s, start, end, None, cutoff).value;
      var restaurant := SalesAnalytics(s, start, end, Some(Restaurant), cutoff).value;
      var bar := SalesAnalytics(s, start, end, Some(Bar), cutoff).value;
      && all.totalSales == restaurant.totalSales + bar.totalSales
      && all.orderCount == restaurant.orderCount + bar.orderCount
  {
    var cleaned := CleanupOldData(s, cutoff);
    CleanupKeepsChannels(s, cutoff);
    ChannelSplit(cleaned, start, end);
    SalesFigures(s, start, end, None, cutoff);
    SalesFigures(s, start, end, Some(Restaurant), cutoff);
    SalesFigures(s, start, end, Some(Bar), cutoff);
  }

  /** The counted orders of a two-channel store split into the two channels'. */
  lemma ChannelSplit(s: Store, start: Millis, end: Millis)
    requires TwoChannels(s)
    ensures var all, r, b := SalesOrders(s, start, end, None), SalesOrders(s, start, end, Some(Restaurant)),
                             SalesOrders(s, start, end, Some(Bar));
      && Seqs.SumBy(all, Amount) == Seqs.SumBy(r, Amount) + Seqs.SumBy(b, Amount)
      && |all| == |r| + |b|
  {
    var l := Seqs.Filter(OrderList(s), CompletedWithin(start, end));
    ListedChannels(s, CompletedWithin(start, end));
    SplitByChannel(l, Restaurant, Bar);
  }

  lemma CleanupKeepsChannels(s: Store, cutoff: Millis)
    requires TwoChannels(s)
    ensures TwoChannels(CleanupOldData(s, cutoff))
  {
  }

  lemma ListedChannels(s: Store, p: Order -> bool)
    requires TwoChannels(s)
    ensures forall o :: o in Seqs.Filter(OrderList(s), p) ==> o.serviceType == Restaurant || o.serviceType == Bar
  {
    forall o | o in Seqs.Filter(OrderList(s), p) ensures o.serviceType == Restaurant || o.serviceType == Bar {
      AscendingFrom(s.orders, 1, s.nextOrderId, o);
    }
  }

  /** The two headline figures of the report, in terms of the counted orders. */
  lemma SalesFigures(s: Store, start: Millis, end: Millis, serviceType: Option<string>, cutoff: Millis)
    ensures var orders := SalesOrders(CleanupOldData(s, cutoff), start, end, serviceType);
      && SalesAnalytics(s, start, end, serviceType, cutoff).value.totalSales == Seqs.SumBy(orders, Amount)
      && SalesAnalytics(s, start, end, serviceType, cutoff).value.orderCount == |orders|
  {
  }

  // ---------------------------------------------------------------------------
  // Payments

  predicate PaidIn(o: Order, start: Millis, end: Millis)
  {
    InWindow(o, start, end) && o.paymentStatus == PaymentPaid
  }

  function PaidWithin(start: Millis, end: Millis): Order -> bool
  {
    (o: Order) => PaidIn(o, start, end)
  }

  /** The paid orders in the window. */
  function PaidOrders(s: Store, start: Millis, end: Millis): seq<Order>
  {
    Seqs.Filter(OrderList(s), PaidWithin(start, end))
  }

  function UsesMethod(m: string): Order -> bool
  {
    (o: Order) => o.paymentMethod == Some(m)
  }

  /** The payment method is one the report splits by. */
  function KnownMethod(): Order -> bool
  {
    (o: Order) => o.paymentMethod in {Some(MethodCash), Some(MethodUpi), Some(MethodCard)}
  }

  /** Running sums per payment method. */
  datatype MethodTotals = MethodTotals(cash: Cents, upi: Cents, card: Cents)

  /** The per-order `switch` on the payment method: a cash, UPI or card
      order adds to its own sum, any other method (or none) to nothing. */
  function AddPayment(t: MethodTotals, o: Order): MethodTotals
  {
    match o.paymentMethod
    case Some(m) =>
      if m == MethodCash then t.(cash := t.cash + o.totalAmount)
      else if m == MethodUpi then t.(upi := t.upi + o.totalAmount)
      else if m == MethodCard then t.(card := t.card + o.totalAmount)
      else t
    case None => t
  }

  /** The sums over a sequence of orders. */
  function SumByMethod(orders: seq<Order>): MethodTotals
  {
    if |orders| == 0 then MethodTotals(0, 0, 0)
    else AddPayment(SumByMethod(orders[1..]), orders[0])
  }

  lemma SumByCons(x: Order, t: seq<Order>)
    ensures Seqs.SumBy([x] + t, Amount) == x.totalAmount + Seqs.SumBy(t, Amount)
  {
    assert ([x] + t)[1..] == t;
  }

  /** The running sum the report keeps for method `m`. */
  function SumFor(t: MethodTotals, m: string): Cents
  {
    if m == MethodCash then t.cash else if m == MethodUpi then t.upi else if m == MethodCard then t.card else 0
  }

  /** One order changes the sum of its own method, and only when that
      method is cash, UPI or card. */
  lemma AddPaymentFor(t: MethodTotals, o: Order, m: string)
    requires m in {MethodCash, MethodUpi, MethodCard}
    ensures SumFor(AddPayment(t, o), m) == SumFor(t, m) + (if UsesMethod(m)(o) then o.totalAmount else 0)
    ensures var u := AddPayment(t, o);
      u.cash + u.upi + u.card == t.cash + t.upi + t.card + (if KnownMethod()(o) then o.totalAmount else 0)
  {
  }

  /** Each method's sum is the total of the orders paid by that method. */
  lemma {:induction false} SumByMethodSplits(orders: seq<Order>, m: string)
    requires m in {MethodCash, MethodUpi, MethodCard}
    ensures SumFor(SumByMethod(orders), m) == Seqs.SumBy(Seqs.Filter(orders, UsesMethod(m)), Amount)
    decreases |orders|
  {
    if |orders| > 0 {
      var x, t := orders[0], orders[1..];
      SumByMethodSplits(t, m);
      AddPaymentFor(SumByMethod(t), x, m);
      var rest := Seqs.Filter(t, UsesMethod(m));
      assert Seqs.Filter(orders, UsesMethod(m)) == (if UsesMethod(m)(x) then [x] else []) + rest;
      if UsesMethod(m)(x) {
        SumByCons(x, rest);
      } else {
        assert [] + rest == rest;
      }
    }
  }

  /** The three sums together are the total of the orders paid by a known method. */
  lemma {:induction false} SumByMethodTotal(orders: seq<Order>)
    ensures var t := SumByMethod(orders);
      t.cash + t.upi + t.card == Seqs.SumBy(Seqs.Filter(orders, KnownMethod()), Amount)
    decreases |orders|
  {
    if |orders| > 0 {
      var x, t := orders[0], orders[1..];
      SumByMethodTotal(t);
      AddPaymentFor(SumByMethod(t), x, MethodCash);
      var rest := Seqs.Filter(t, KnownMethod());
      assert Seqs.Filter(orders, KnownMethod()) == (if KnownMethod()(x) then [x] else []) + rest;
      if KnownMethod()(x) {
        SumByCons(x, rest);
      } else {
        assert [] + rest == rest;
      }
    }
  }

  /** The payment report, computed after the retention cleanup: the paid
      orders of the window split by payment method. */
  function PaymentAnalytics(s: Store, start: Millis, end: Millis, cutoff: Millis): (r: Step<PaymentReport>)
    ensures r.store == CleanupOldData(s, cutoff)
    ensures var paid := PaidOrders(r.store, start, end);
      && r.value.cash == Seqs.SumBy(Seqs.Filter(paid, UsesMethod(MethodCash)), Amount)
      && r.value.upi == Seqs.SumBy(Seqs.Filter(paid, UsesMethod(MethodUpi)), Amount)
      && r.value.card == Seqs.SumBy(Seqs.Filter(paid, UsesMethod(MethodCard)), Amount)
      && r.value.total == Seqs.SumBy(Seqs.Filter(paid, KnownMethod()), Amount)
  {
    var cleaned := CleanupOldData(s, cutoff);
    var paid := PaidOrders(cleaned, start, end);
    var t := SumByMethod(paid);
    SumByMethodSplits(paid, MethodCash);
    SumByMethodSplits(paid, MethodUpi);
    SumByMethodSplits(paid, MethodCard);
    SumByMethodTotal(paid);
    Step(cleaned, PaymentReport(t.cash, t.upi, t.card, t.cash + t.upi + t.card))
  }
}
