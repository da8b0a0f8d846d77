/** The customer ordering page: the cart, its totals, the order it submits,
    the client-side pause gate on placement and the pause countdown text. */
module CustomerOrder {
  import opened Wrappers
  import opened Schema
  import opened Storage
  import opened PauseControl
  import opened PauseView
  import Text
  import Seqs

  /** The menu fields the cart copies. */
  datatype MenuItem = MenuItem(id: int, name: string, price: Cents)

  /** A cart entry: a menu item and how many of it. */
  datatype CartLine = CartLine(id: int, name: string, price: Cents, quantity: int)

  type Cart = seq<CartLine>

  /** Each menu item appears at most once, with a positive quantity. */
  predicate CartValid(cart: Cart)
  {
    && (forall i, j :: 0 <= i < j < |cart| ==> cart[i].id != cart[j].id)
    && (forall i :: 0 <= i < |cart| ==> cart[i].quantity >= 1)
  }

  /** The first entry for a menu item. */
  function FindLine(cart: Cart, id: int): (r: Option<CartLine>)
    ensures r.Some? ==> r.value in cart && r.value.id == id
    ensures r.None? <==> forall i :: 0 <= i < |cart| ==> cart[i].id != id
  {
    if |cart| == 0 then None
    else if cart[0].id == id then Some(cart[0])
    else FindLine(cart[1..], id)
  }

  /** How many of a menu item the cart holds (0 when it holds none). */
  function QuantityOf(cart: Cart, id: int): int
  {
    match FindLine(cart, id)
    case None => 0
    case Some(line) => line.quantity
  }

  /** Every entry for `id` with its quantity changed by `delta`; the others as they are. */
  function Bump(cart: Cart, id: int, delta: int): (r: Cart)
    ensures |r| == |cart|
  {
    if |cart| == 0 then []
    else [BumpLine(cart[0], id, delta)] + Bump(cart[1..], id, delta)
  }

  function BumpLine(line: CartLine, id: int, delta: int): CartLine
  {
    if line.id == id then line.(quantity := line.quantity + delta) else line
  }

  lemma {:induction false} BumpAt(cart: Cart, id: int, delta: int)
    ensures forall i :: 0 <= i < |cart| ==> Bump(cart, id, delta)[i] == BumpLine(cart[i], id, delta)
    decreases |cart|
  {
    if |cart| > 0 {
      BumpAt(cart[1..], id, delta);
    }
  }

  /** A lookup in a cart whose first entry is `x`. */
  lemma FindLineCons(x: CartLine, t: Cart, other: int)
    ensures FindLine([x] + t, other) == if x.id == other then Some(x) else FindLine(t, other)
  {
    assert ([x] + t)[1..] == t;
  }

  /** A lookup after a bump finds the bumped entry. */
  function BumpFound(found: Option<CartLine>, id: int, delta: int): Option<CartLine>
  {
    if found.Some? then Some(BumpLine(found.value, id, delta)) else None
  }

  lemma {:induction false} FindLineBump(cart: Cart, id: int, delta: int, other: int)
    ensures FindLine(Bump(cart, id, delta), other) == BumpFound(FindLine(cart, other), id, delta)
    decreases |cart|
  {
    if |cart| > 0 {
      var x, t := cart[0], cart[1..];
      assert cart == [x] + t;
      FindLineCons(x, t, other);
      FindLineCons(BumpLine(x, id, delta), Bump(t, id, delta), other);
      if x.id != other {
        FindLineBump(t, id, delta, other);
      }
    }
  }

  /** The cart without the entries of one item, in order. */
  function Drop(cart: Cart, id: int): Cart
  {
    if |cart| == 0 then []
    else (if cart[0].id != id then [cart[0]] else []) + Drop(cart[1..], id)
  }

  /** `addToCart`: one more of an item already in the cart, otherwise the
      item appended with quantity 1. */
  function AddToCart(cart: Cart, item: MenuItem): (r: Cart)
    ensures FindLine(cart, item.id).Some? ==>
      && |r| == |cart|
      && forall i :: 0 <= i < |cart| ==>
           r[i] == if cart[i].id == item.id then cart[i].(quantity := cart[i].quantity + 1) else cart[i]
    ensures FindLine(cart, item.id).None? ==> r == cart + [CartLine(item.id, item.name, item.price, 1)]
    ensures forall i :: 0 <= i < |cart| && cart[i].id != item.id ==> r[i] == cart[i]
    ensures QuantityOf(r, item.id) == QuantityOf(cart, item.id) + 1
    ensures forall other :: other != item.id ==> QuantityOf(r, other) == QuantityOf(cart, other)
    ensures CartValid(cart) ==> CartValid(r)
  {
    if FindLine(cart, item.id).Some? then
      var r := Bump(cart, item.id, 1);
      FindLineBumpAll(cart, item.id, 1);
      BumpAt(cart, item.id, 1);
      r
    else
      var r := cart + [CartLine(item.id, item.name, item.price, 1)];
      FindLineAppend(cart, CartLine(item.id, item.name, item.price, 1));
      r
  }

  /** Lookups in a bumped cart, for every id at once. */
  lemma FindLineBumpAll(cart: Cart, id: int, delta: int)
    ensures forall other :: FindLine(Bump(cart, id, delta), other) == BumpFound(FindLine(cart, other), id, delta)
  {
    forall other {
      FindLineBump(cart, id, delta, other);
    }
  }

  lemma {:induction false} FindLineAppendOne(cart: Cart, line: CartLine, other: int)
    ensures FindLine(cart + [line], other) ==
      if FindLine(cart, other).Some? then FindLine(cart, other)
      else if line.id == other then Some(line) else None
    decreases |cart|
  {
    if |cart| == 0 {
      assert cart + [line] == [line];
    } else {
      assert (cart + [line])[1..] == cart[1..] + [line];
      FindLineAppendOne(cart[1..], line, other);
    }
  }

  lemma FindLineAppend(cart: Cart, line: CartLine)
    ensures forall other :: FindLine(cart + [line], other) ==
                            if FindLine(cart, other).Some? then FindLine(cart, other)
                            else if line.id == other then Some(line) else None
  {
    forall other {
      FindLineAppendOne(cart, line, other);
    }
  }

  /** `removeFromCart`: one fewer of an item held more than once, otherwise
      its entry dropped; an item not in the cart leaves the cart as it was. */
  function RemoveFromCart(cart: Cart, id: int): (r: Cart)
    ensures FindLine(cart, id).None? ==> r == cart
    ensures FindLine(cart, id).Some? && FindLine(cart, id).value.quantity > 1 ==>
      && |r| == |cart|
      && forall i :: 0 <= i < |cart| ==>
           r[i] == if cart[i].id == id then cart[i].(quantity := cart[i].quantity - 1) else cart[i]
    ensures CartValid(cart) && FindLine(cart, id).Some? && FindLine(cart, id).value.quantity <= 1 ==>
      forall j :: 0 <= j < |cart| && cart[j].id == id ==> r == cart[..j] + cart[j + 1..]
    ensures CartValid(cart) ==>
      && CartValid(r)
      && QuantityOf(r, id) == (if QuantityOf(cart, id) > 1 then QuantityOf(cart, id) - 1 else 0)
      && (forall other :: other != id ==> QuantityOf(r, other) == QuantityOf(cart, other))
  {
    var existing := FindLine(cart, id);
    if existing.Some? && existing.value.quantity > 1 then
      BumpDown(cart, id);
      BumpAt(cart, id, -1);
      Bump(cart, id, -1)
    else
      DropAll(cart, id);
      DropEntry(cart, id);
      Drop(cart, id)
  }

  /** In a valid cart, dropping an item removes exactly its one entry and
      keeps the others in order. */
  lemma DropEntry(cart: Cart, id: int)
    ensures CartValid(cart) ==> forall j :: 0 <= j < |cart| && cart[j].id == id ==> Drop(cart, id) == cart[..j] + cart[j + 1..]
  {
    if CartValid(cart) {
      forall j | 0 <= j < |cart| && cart[j].id == id
        ensures Drop(cart, id) == cart[..j] + cart[j + 1..]
      {
        assert forall k :: 0 <= k < |cart| && k != j ==> cart[k].id != cart[j].id;
        DropEntryAt(cart, id, j);
      }
    }
  }

  /** Dropping an item held only at index `j` removes that entry. */
  lemma DropEntryAt(cart: Cart, id: int, j: int)
    requires 0 <= j < |cart| && cart[j].id == id
    requires forall k :: 0 <= k < |cart| && k != j ==> cart[k].id != id
    ensures Drop(cart, id) == cart[..j] + cart[j + 1..]
  {
    var before, tail, after := cart[..j], cart[j..], cart[j + 1..];
    assert cart == before + tail;
    assert forall i :: 0 <= i < |before| ==> before[i] == cart[i];
    DropAbsent(before, tail, id);
    assert tail[0] == cart[j] && tail[1..] == after;
    assert Drop(tail, id) == Drop(after, id);
    assert forall i :: 0 <= i < |after| ==> after[i] == cart[j + 1 + i];
    DropAbsent(after, [], id);
    assert after + [] == after;
  }

  /** One unit fewer of an item held more than once: the cart stays valid and
      only that item's quantity changes. */
  lemma BumpDown(cart: Cart, id: int)
    requires FindLine(cart, id).Some? && FindLine(cart, id).value.quantity > 1
    ensures CartValid(cart) ==> CartValid(Bump(cart, id, -1))
    ensures QuantityOf(Bump(cart, id, -1), id) == QuantityOf(cart, id) - 1
    ensures forall other :: other != id ==> QuantityOf(Bump(cart, id, -1), other) == QuantityOf(cart, other)
  {
    var r := Bump(cart, id, -1);
    FindLineBumpAll(cart, id, -1);
    BumpAt(cart, id, -1);
    if CartValid(cart) {
      forall i | 0 <= i < |r| ensures r[i].quantity >= 1 {
        if cart[i].id == id {
          assert FindLine(cart, id).value == cart[i] by {
            BumpFirst(cart, id, i);
          }
        }
      }
    }
  }

  /** In a valid cart the entry found for an id is the one at any index holding it. */
  lemma BumpFirst(cart: Cart, id: int, i: int)
    requires CartValid(cart) && 0 <= i < |cart| && cart[i].id == id
    ensures FindLine(cart, id) == Some(cart[i])
  {
    var f := FindLine(cart, id).value;
    var j :| 0 <= j < |cart| && cart[j] == f;
  }

  /** Dropping the entries of one item leaves the other lookups as they
      were and the item gone. */
  lemma {:induction false} DropFind(cart: Cart, id: int, other: int)
    ensures FindLine(Drop(cart, id), other) == if other == id then None else FindLine(cart, other)
    decreases |cart|
  {
    if |cart| > 0 {
      var x, t := cart[0], cart[1..];
      assert cart == [x] + t;
      DropFind(t, id, other);
      FindLineCons(x, t, other);
      if x.id != id {
        assert Drop(cart, id) == [x] + Drop(t, id);
        FindLineCons(x, Drop(t, id), other);
      } else {
        assert Drop(cart, id) == Drop(t, id);
      }
    }
  }

  /** Entries before the item's first one are kept as they are. */
  lemma {:induction false} DropAbsent(a: Cart, b: Cart, id: int)
    requires forall i :: 0 <= i < |a| ==> a[i].id != id
    ensures Drop(a + b, id) == a + Drop(b, id)
    decreases |a|
  {
    if |a| == 0 {
      assert a + b == b;
    } else {
      assert (a + b)[1..] == a[1..] + b;
      DropAbsent(a[1..], b, id);
    }
  }

  lemma DropAll(cart: Cart, id: int)
    ensures forall other :: FindLine(Drop(cart, id), other) == if other == id then None else FindLine(cart, other)
    ensures FindLine(cart, id).None? ==> Drop(cart, id) == cart
    ensures CartValid(cart) ==> CartValid(Drop(cart, id))
  {
    forall other {
      DropFind(cart, id, other);
    }
    if FindLine(cart, id).None? {
      DropAbsent(cart, [], id);
      assert cart + [] == cart;
    }
    DropValid(cart, id);
  }

  lemma {:induction false} DropValid(cart: Cart, id: int)
    ensures CartValid(cart) ==> CartValid(Drop(cart, id))
    decreases |cart|
  {
    if |cart| > 0 && CartValid(cart) {
      var x, rest := cart[0], cart[1..];
      assert cart == [x] + rest;
      ValidTail(x, rest);
      DropValid(rest, id);
      var fr := Drop(rest, id);
      if x.id != id {
        assert Drop(cart, id) == [x] + fr;
        DropFind(rest, id, x.id);
        ValidCons(x, fr);
      } else {
        assert Drop(cart, id) == fr;
      }
    }
  }

  /** The tail of a valid cart is valid and does not hold the head's item. */
  lemma ValidTail(x: CartLine, rest: Cart)
    requires CartValid([x] + rest)
    ensures CartValid(rest) && FindLine(rest, x.id).None?
  {
    var c := [x] + rest;
    assert c[0] == x;
    forall i | 0 <= i < |rest| ensures rest[i].id != x.id && rest[i].quantity >= 1 {
      assert rest[i] == c[i + 1];
    }
    forall i, j | 0 <= i < j < |rest| ensures rest[i].id != rest[j].id {
      assert rest[i] == c[i + 1] && rest[j] == c[j + 1];
    }
  }

  /** A valid cart without an item, with that item's entry put in front, is valid. */
  lemma ValidCons(x: CartLine, rest: Cart)
    requires CartValid(rest) && FindLine(rest, x.id).None? && x.quantity >= 1
    ensures CartValid([x] + rest)
  {
    var c := [x] + rest;
    forall i | 0 <= i < |c| ensures c[i].quantity >= 1 {
      if i > 0 {
        assert c[i] == rest[i - 1];
      }
    }
    forall i, j | 0 <= i < j < |c| ensures c[i].id != c[j].id {
      assert c[j] == rest[j - 1];
      if i > 0 {
        assert c[i] == rest[i - 1];
      }
    }
  }

  /** Adding an item and then removing it gives back the cart. */
  lemma AddThenRemove(cart: Cart, item: MenuItem)
    requires CartValid(cart)
    ensures RemoveFromCart(AddToCart(cart, item), item.id) == cart
  {
    var added := AddToCart(cart, item);
    if FindLine(cart, item.id).Some? {
      assert added == Bump(cart, item.id, 1);
      FindLineBump(cart, item.id, 1, item.id);
      assert RemoveFromCart(added, item.id) == Bump(added, item.id, -1);
      BumpBack(cart, item.id, 1);
    } else {
      var line := CartLine(item.id, item.name, item.price, 1);
      assert added == cart + [line];
      FindLineAppend(cart, line);
      assert RemoveFromCart(added, item.id) == Drop(added, item.id);
      DropAbsent(cart, [line], item.id);
      assert Drop([line], item.id) == [];
      assert cart + [] == cart;
    }
  }

  /** Bumping an item by `delta` and then by `-delta` gives back the cart. */
  lemma {:induction false} BumpBack(cart: Cart, id: int, delta: int)
    ensures Bump(Bump(cart, id, delta), id, -delta) == cart
    decreases |cart|
  {
    if |cart| > 0 {
      var b := Bump(cart, id, delta);
      assert b[1..] == Bump(cart[1..], id, delta);
      BumpBack(cart[1..], id, delta);
      assert b[0] == BumpLine(cart[0], id, delta);
      assert BumpLine(b[0], id, -delta) == cart[0];
      assert cart == [cart[0]] + cart[1..];
    }
  }

  // ---------------------------------------------------------------------------
  // Totals

  function LineQuantity(line: CartLine): int { line.quantity }
  function LineAmount(line: CartLine): Cents { line.price * line.quantity }

  /** `getTotalItems`: the number of units in the cart. */
  function TotalItems(cart: Cart): int
  {
    Seqs.SumBy(cart, LineQuantity)
  }

  /** `getTotalAmount`: the price of the cart, in hundredths. */
  function TotalAmount(cart: Cart): Cents
  {
    Seqs.SumBy(cart, LineAmount)
  }

  /** The change of the totals when one item's entry is bumped by one unit. */
  lemma {:induction false} BumpTotals(cart: Cart, id: int, delta: int)
    requires CartValid(cart) && (delta == 1 || delta == -1)
    ensures var line := FindLine(cart, id);
      && TotalItems(Bump(cart, id, delta)) == TotalItems(cart) + (if line.Some? then delta else 0)
      && TotalAmount(Bump(cart, id, delta)) == TotalAmount(cart) + (if line.Some? then delta * line.value.price else 0)
    decreases |cart|
  {
    if |cart| > 0 {
      var rest := cart[1..];
      assert CartValid(rest);
      assert Bump(cart, id, delta)[1..] == Bump(rest, id, delta);
      BumpTotals(rest, id, delta);
      if cart[0].id == id {
        assert FindLine(rest, id).None? by {
          forall i | 0 <= i < |rest| ensures rest[i].id != id {
            assert rest[i] == cart[i + 1];
          }
        }
        var x := cart[0];
        assert x.price * (x.quantity + delta) == x.price * x.quantity + delta * x.price;
      }
    }
  }

  /** The totals drop by one entry's worth when that entry is removed. */
  lemma {:induction false} DropTotals(cart: Cart, id: int)
    requires CartValid(cart)
    ensures var line := FindLine(cart, id);
      && TotalItems(Drop(cart, id)) == TotalItems(cart) - (if line.Some? then line.value.quantity else 0)
      && TotalAmount(Drop(cart, id)) == TotalAmount(cart) - (if line.Some? then LineAmount(line.value) else 0)
    decreases |cart|
  {
    if |cart| > 0 {
      var rest := cart[1..];
      assert CartValid(rest);
      DropTotals(rest, id);
      var fr := Drop(rest, id);
      if cart[0].id == id {
        assert FindLine(rest, id).None? by {
          forall i | 0 <= i < |rest| ensures rest[i].id != id {
            assert rest[i] == cart[i + 1];
          }
        }
        assert Drop(cart, id) == fr;
      } else {
        assert Drop(cart, id) == [cart[0]] + fr;
      }
    }
  }

  /** Adding an item puts one more unit and its price on the totals (the
      price of the entry already held, when there is one). */
  lemma AddToCartTotals(cart: Cart, item: MenuItem)
    requires CartValid(cart)
    ensures var held := FindLine(cart, item.id);
      && TotalItems(AddToCart(cart, item)) == TotalItems(cart) + 1
      && TotalAmount(AddToCart(cart, item)) == TotalAmount(cart) + (if held.Some? then held.value.price else item.price)
  {
    if FindLine(cart, item.id).Some? {
      BumpTotals(cart, item.id, 1);
    } else {
      var line := CartLine(item.id, item.name, item.price, 1);
      Seqs.SumByConcat(cart, [line], LineQuantity);
      Seqs.SumByConcat(cart, [line], LineAmount);
    }
  }

  /** Removing an item takes one unit and its price off the totals; an item
      not in the cart changes nothing. */
  lemma RemoveFromCartTotals(cart: Cart, id: int)
    requires CartValid(cart)
    ensures var held := FindLine(cart, id);
      && TotalItems(RemoveFromCart(cart, id)) == TotalItems(cart) - (if held.Some? then 1 else 0)
      && TotalAmount(RemoveFromCart(cart, id)) == TotalAmount(cart) - (if held.Some? then held.value.price else 0)
  {
    var held := FindLine(cart, id);
    var r := RemoveFromCart(cart, id);
    if held.Some? && held.value.quantity > 1 {
      assert r == Bump(cart, id, -1);
      BumpTotals(cart, id, -1);
      assert -1 * held.value.price == -held.value.price;
    } else {
      assert r == Drop(cart, id);
      DropTotals(cart, id);
      if held.Some? {
        DropOneUnit(held.value);
      }
    }
  }

  /** An entry that holds a single unit is worth its price. */
  lemma DropOneUnit(line: CartLine)
    requires line.quantity == 1
    ensures LineAmount(line) == line.price
  {
  }

  // ---------------------------------------------------------------------------
  // Placement

  /** The line a cart entry is serialised as. */
  function ToLine(line: CartLine): LineItem
  {
    LineItem(line.id, line.name, line.price, line.quantity)
  }

  function ToLines(cart: Cart): (r: seq<LineItem>)
    ensures |r| == |cart|
    ensures forall i :: 0 <= i < |cart| ==> r[i] == ToLine(cart[i])
  {
    if |cart| == 0 then [] else [ToLine(cart[0])] + ToLines(cart[1..])
  }

  /** `handlePlaceOrder`: nothing for an empty cart; otherwise the order the
      page submits, with the table id falling back to 0 and the table number
      and channel to "", status "pending" and the cart's total. */
  function HandlePlaceOrder(cart: Cart, tableId: Option<int>, tableNumber: Option<string>,
                            serviceType: Option<string>): (r: Option<InsertOrder>)
    ensures r.None? <==> |cart| == 0
    ensures r.Some? ==>
      && r.value.status == Some(StatusPending)
      && r.value.paymentStatus.None? && r.value.paymentMethod.None? && r.value.cancelReason.None?
      && r.value.totalAmount == TotalAmount(cart)
      && r.value.items == Lines(ToLines(cart))
      && r.value.tableId == Some(if TruthyNumber(tableId) then tableId.value else 0)
      && r.value.tableNumber == (if TruthyText(tableNumber) then tableNumber.value else "")
      && r.value.serviceType == (if TruthyText(serviceType) then serviceType.value else "")
  {
    if |cart| == 0 then None
    else Some(InsertOrder(
      tableId := Some(OrNumber(tableId, 0)),
      tableNumber := OrText(tableNumber, ""),
      serviceType := OrText(serviceType, ""),
      status := Some(StatusPending),
      totalAmount := TotalAmount(cart),
      items := Lines(ToLines(cart)),
      paymentMethod := None,
      paymentStatus := None,
      cancelReason := None))
  }

  function LineItemAmount(line: LineItem): Cents { line.price * line.quantity }

  /** The submitted total is the sum of the submitted lines. */
  lemma {:induction false} TotalMatchesLines(cart: Cart)
    ensures Seqs.SumBy(ToLines(cart), LineItemAmount) == TotalAmount(cart)
    decreases |cart|
  {
    if |cart| > 0 {
      TotalMatchesLines(cart[1..]);
      assert ToLines(cart)[1..] == ToLines(cart[1..]);
    }
  }

  /** What placing an order from the page leads to. */
  datatype Placement = NoRequest | PausedNotice | Submit(order: InsertOrder)

  /** The placement mutation: a page that judges the channel paused shows
      an error and sends nothing. */
  function PlaceOrder(cart: Cart, tableId: Option<int>, tableNumber: Option<string>, serviceType: Option<string>,
                      status: Option<PauseStatus>, now: Millis): (r: Placement)
    ensures r.NoRequest? <==> |cart| == 0
    ensures r.PausedNotice? <==> |cart| > 0 && IsServicePaused(status, now)
    ensures r.Submit? ==> Some(r.order) == HandlePlaceOrder(cart, tableId, tableNumber, serviceType)
  {
    match HandlePlaceOrder(cart, tableId, tableNumber, serviceType)
    case None => NoRequest
    case Some(ins) => if IsServicePaused(status, now) then PausedNotice else Submit(ins)
  }

  /** A page whose status was fetched from the server sends an order only
      when the server's check, at the time the page decides, finds the
      channel not paused. */
  lemma PageGateMatchesServer(s: Store, cart: Cart, tableId: Option<int>, tableNumber: Option<string>,
                              channel: string, fetched: Millis, now: Millis)
    requires Valid(s) && |cart| > 0
    ensures var check := CheckPaused(s, channel, fetched);
      PlaceOrder(cart, tableId, tableNumber, Some(channel), Some(check.value), now).Submit? <==>
        !CheckPaused(check.store, channel, now).value.Paused?
  {
    ViewAgreesWithServer(s, channel, fetched, now);
  }

  // ---------------------------------------------------------------------------
  // Pause countdown

  /** The countdown the page shows: nothing when the status is not paused,
      "resuming soon" once the end has passed, whole minutes while at least
      one remains, otherwise whole seconds. */
  datatype Countdown = NoCountdown | ResumingSoon | MinutesLeft(minutes: int) | SecondsLeft(seconds: int)

  function CountdownOf(status: Option<PauseStatus>, now: Millis): (r: Countdown)
    ensures !(status.Some? && status.value.Paused?) <==> r == NoCountdown
    ensures status.Some? && status.value.Paused? ==>
      var left := LeftMillis(status.value.pausedAt, status.value.pauseDurationMinutes, now);
      && (r == ResumingSoon <==> left <= 0)
      && (r.MinutesLeft? <==> left >= MillisPerMinute)
      && (r.MinutesLeft? ==> r.minutes * MillisPerMinute <= left < (r.minutes + 1) * MillisPerMinute)
      && (r.SecondsLeft? ==> 0 <= r.seconds < 60 && r.seconds * MillisPerSecond <= left < (r.seconds + 1) * MillisPerSecond)
  {
    match status
    case Some(Paused(pausedAt, minutes, _, _)) =>
      var left := LeftMillis(pausedAt, minutes, now);
      if left <= 0 then ResumingSoon
      else
        var m := left / MillisPerMinute;
        var sec := (left % MillisPerMinute) / MillisPerSecond;
        MinuteSecondSplit(left);
        if m > 0 then MinutesLeft(m) else SecondsLeft(sec)
    case _ => NoCountdown
  }

  /** `Math.floor(r / 60000)` and `Math.floor((r % 60000) / 1000)` for a
      positive `r`: the whole minutes and the whole seconds after them. */
  lemma MinuteSecondSplit(left: int)
    requires left > 0
    ensures var m, sec := left / MillisPerMinute, (left % MillisPerMinute) / MillisPerSecond;
      && m >= 0 && 0 <= sec < 60
      && m * MillisPerMinute <= left < (m + 1) * MillisPerMinute
      && m * MillisPerMinute + sec * MillisPerSecond <= left < m * MillisPerMinute + (sec + 1) * MillisPerSecond
  {
    var m := left / MillisPerMinute;
    var rest := left % MillisPerMinute;
    assert left == m * MillisPerMinute + rest && 0 <= rest < MillisPerMinute;
    var sec := rest / MillisPerSecond;
    assert rest == sec * MillisPerSecond + rest % MillisPerSecond;
  }

  /** The page counts down while it judges the channel paused, and only then. */
  lemma CountdownWhilePaused(status: Option<PauseStatus>, now: Millis)
    ensures IsServicePaused(status, now) <==> CountdownOf(status, now).MinutesLeft? || CountdownOf(status, now).SecondsLeft?
  {
  }

  /** The page's minutes against the server's `remainingTimeMinutes`, read at
      the same instant: the page floors where the server counts started
      minutes, so it shows one minute fewer unless the time left is a whole
      number of minutes. */
  lemma CountdownAgainstServer(s: Store, channel: string, now: Millis)
    requires CheckPaused(s, channel, now).value.Paused?
    ensures var st := CheckPaused(s, channel, now).value;
      var left := LeftMillis(st.pausedAt, st.pauseDurationMinutes, now);
      match CountdownOf(Some(st), now)
      case MinutesLeft(m) =>
        m == (if left % MillisPerMinute == 0 then st.remainingTimeMinutes else st.remainingTimeMinutes - 1)
      case SecondsLeft(_) => st.remainingTimeMinutes == 1
      case _ => false
  {
    var st := CheckPaused(s, channel, now).value;
    var left := LeftMillis(st.pausedAt, st.pauseDurationMinutes, now);
    var m := left / MillisPerMinute;
    assert m * MillisPerMinute <= left < m * MillisPerMinute + MillisPerMinute;
    var r := st.remainingTimeMinutes;
    assert (r - 1) * MillisPerMinute < left <= r * MillisPerMinute;
    if left % MillisPerMinute == 0 {
      assert left == m * MillisPerMinute;
      assert m == r;
    } else {
      assert m * MillisPerMinute < left;
      assert m == r - 1;
    }
  }

  /** The countdown text. */
  function Plural(n: int): string
  {
    if n != 1 then "s" else ""
  }

  function CountdownText(c: Countdown): (r: string)
    ensures r == "" <==> c == NoCountdown
  {
    match c
    case NoCountdown => ""
    case ResumingSoon => "Service resuming soon..."
    case MinutesLeft(m) => "Service resumes in " + Text.IntToString(m) + " minute" + Plural(m)
    case SecondsLeft(sec) => "Service resumes in " + Text.IntToString(sec) + " second" + Plural(sec)
  }

  /** `formatRemainingTime` of the customer page. */
  function FormatRemainingTime(status: Option<PauseStatus>, now: Millis): (r: string)
    ensures r == "" <==> !(status.Some? && status.value.Paused?)
  {
    CountdownText(CountdownOf(status, now))
  }

  /** Under a second before the end, the page reads "0 seconds". */
  lemma LastSecondShowsZero(status: Option<PauseStatus>, now: Millis)
    requires status.Some? && status.value.Paused?
    requires 0 < LeftMillis(status.value.pausedAt, status.value.pauseDurationMinutes, now) < MillisPerSecond
    ensures CountdownOf(status, now) == SecondsLeft(0)
    ensures FormatRemainingTime(status, now) == "Service resumes in 0 seconds"
  {
    assert Text.IntToString(0) == "0";
  }
}
