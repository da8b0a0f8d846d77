/** Records of the order lifecycle: orders, order items and per-channel pause
    settings, with the column defaults of the shared schema. Money columns are
    decimal(10,2) and are held as integer hundredths; timestamps are epoch
    milliseconds. A field that may be `null` is an `Option`. */
module Schema {
  import opened Wrappers
  import Text

  /** An amount of money in hundredths of the currency unit. */
  type Cents = int
  /** A point in time in milliseconds since the epoch. */
  type Millis = int

  const MillisPerMinute: int := 60000
  const MillisPerSecond: int := 1000

  // Order status values (the `status` column is free text; these are the ones the system writes).
  const StatusPending: string := "pending"
  const StatusPreparing: string := "preparing"
  const StatusReady: string := "ready"
  const StatusCompleted: string := "completed"
  const StatusCancelled: string := "cancelled"

  // Payment status values: the column comment names 'pending' and 'completed',
  // the staff pages write 'paid', which is what the analytics look for.
  const PaymentPending: string := "pending"
  const PaymentPaid: string := "paid"

  // Payment methods offered by the staff pages.
  const MethodCash: string := "cash"
  const MethodUpi: string := "upi"
  const MethodCard: string := "card"

  // Service channels.
  const Restaurant: string := "restaurant"
  const Bar: string := "bar"

  // Column defaults of the pause settings record.
  const DefaultPauseMinutes: int := 30
  const DefaultPauseReason: string := "Rush hours"

  /** One line of an order as the customer page serialises it into `items`. */
  datatype LineItem = LineItem(id: int, name: string, price: Cents, quantity: int)

  /** The `items` text column, as the placement handler reads it element by
      element. `Lines` is an array of well-formed line items. `Unreadable` is
      text whose reading throws after the elements `lines`: an element with
      no `price`, or one that is not an object, stops it. Text that is not
      JSON, or not an array of objects, throws before any element, with
      `lines == []`. */
  datatype ItemsPayload = Lines(lines: seq<LineItem>) | Unreadable(lines: seq<LineItem>)

  datatype Order = Order(
    id: int,
    orderNumber: string,
    tableId: Option<int>,
    tableNumber: string,
    serviceType: string,
    status: string,
    totalAmount: Cents,
    items: ItemsPayload,
    paymentMethod: Option<string>,
    paymentStatus: string,
    createdAt: Millis,
    completedAt: Option<Millis>,
    cancelledAt: Option<Millis>,
    cancelReason: Option<string>)

  /** The order insert input: every column except the server-assigned `id`,
      `orderNumber`, `createdAt`, `completedAt` and `cancelledAt`. A `None`
      is a key the request did not carry. */
  datatype InsertOrder = InsertOrder(
    tableId: Option<int>,
    tableNumber: string,
    serviceType: string,
    status: Option<string>,
    totalAmount: Cents,
    items: ItemsPayload,
    paymentMethod: Option<string>,
    paymentStatus: Option<string>,
    cancelReason: Option<string>)

  /** A normalised order line, kept for analytics. */
  datatype OrderItem = OrderItem(
    id: int,
    orderId: int,
    menuItemId: int,
    quantity: int,
    price: Cents,
    itemName: string)

  datatype InsertOrderItem = InsertOrderItem(
    orderId: Option<int>,
    menuItemId: Option<int>,
    quantity: int,
    price: Cents,
    itemName: string)

  /** The admission-control record of one service channel. */
  datatype PauseSettings = PauseSettings(
    id: int,
    serviceType: string,
    isPaused: bool,
    pauseDurationMinutes: int,
    pausedAt: Option<Millis>,
    pauseReason: string,
    createdAt: Millis,
    updatedAt: Millis)

  /** A pause upsert. `pausedAt == None` means the key is absent, so an
      existing record keeps its previous `pausedAt`. */
  datatype InsertPauseSettings = InsertPauseSettings(
    serviceType: string,
    isPaused: bool,
    pauseDurationMinutes: int,
    pauseReason: string,
    pausedAt: Option<Millis>)

  // JavaScript truthiness of optional fields: `undefined`, `null`, "" and 0 are falsy.

  predicate TruthyText(v: Option<string>)
  {
    v.Some? && v.value != ""
  }

  predicate TruthyNumber(v: Option<int>)
  {
    v.Some? && v.value != 0
  }

  /** `v || fallback` on a text value: the value when truthy, else the fallback. */
  function OrText(v: Option<string>, fallback: string): (r: string)
    ensures r == fallback || Some(r) == v
    ensures fallback != "" ==> r != ""
  {
    if TruthyText(v) then v.value else fallback
  }

  /** `v || fallback` on a number: the value when truthy, else the fallback. */
  function OrNumber(v: Option<int>, fallback: int): (r: int)
    ensures r == fallback || Some(r) == v
    ensures fallback != 0 ==> r != 0
  {
    if TruthyNumber(v) then v.value else fallback
  }

  /** `v || null` on a text value: the value when truthy, else null. */
  function TextOrNull(v: Option<string>): (r: Option<string>)
    ensures r == None || r == v
    ensures r.Some? ==> r.value != ""
  {
    if TruthyText(v) then v else None
  }

  /** `v || null` on a number: the value when truthy, else null. */
  function NumberOrNull(v: Option<int>): (r: Option<int>)
    ensures r == None || r == v
    ensures r.Some? ==> r.value != 0
  {
    if TruthyNumber(v) then v else None
  }

  /** The order number: the upper-cased channel followed by the clock reading. */
  function OrderNumber(serviceType: string, now: Millis): string
  {
    Text.UpperAscii(serviceType) + Text.IntToString(now)
  }

  /** Order numbers of one channel differ whenever the clock readings differ;
      within one millisecond they coincide (see `Storage.SameMillisecondNumbersCollide`). */
  lemma OrderNumbersDistinct(serviceType: string, t1: Millis, t2: Millis)
    requires t1 != t2
    ensures OrderNumber(serviceType, t1) != OrderNumber(serviceType, t2)
  {
    if OrderNumber(serviceType, t1) == OrderNumber(serviceType, t2) {
      Text.AppendCancel(Text.UpperAscii(serviceType), Text.IntToString(t1), Text.IntToString(t2));
      Text.IntToStringInjective(t1, t2);
    }
  }
}
