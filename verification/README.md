# Order lifecycle and service pause of QRKhana Osis Garden, in Dafny

QRKhana is a QR-code ordering system for a restaurant with a bar. Customers scan a table code,
fill a cart on the ordering page and place an order for the `restaurant` or the `bar` channel.
The kitchen and bar dashboards take each order through three steps:

1. "Mark as Delivered" moves a pending order to `ready`.
2. Staff record the payment method, then mark the payment received (`paid`).
3. "Mark as Complete" moves a ready, paid order to `completed`.

Staff may cancel an order while it is still pending. An admin can pause a channel for a number
of minutes. While the pause runs, the ordering page refuses to submit orders and shows a
countdown. The server clears a pause lazily, the first time its check finds the pause has run
out. Sales and payment reports are computed over a time window, after a 30-day retention
cleanup.

The project models this core as pure functions over an immutable `Store`:

- `Schema` holds the records and their column defaults, and JavaScript's `x || fallback` on
  optional values.
- `Storage` models the in-memory store: id counters, order creation, the permissive update,
  the cancellation guard, listing, reset and retention.
- `PauseControl` models the pause upsert and the pause check.
- `Analytics` models the sales and payment reports.
- `Routes` models the HTTP handlers. Each handler is a transition to a new store, a response
  and an optional broadcast event.
- `StaffWorkflow` models the dashboards' card buttons and their three-step policy.
- `CustomerOrder` models the cart, placement, the client-side pause gate and the countdown.
- `AdminPause` models the admin pause form and its countdown.
- `PauseView` models how the pages read a fetched pause status.
- `Scenarios` holds end-to-end runs.
- `Seqs` and `Text` hold generic sequence and text helpers.
- `Wrappers` holds `Option`.

Representation choices:

- Time is epoch milliseconds, passed in as `now`.
- Money is integer hundredths (`Cents`).
- A JavaScript `Map` iterates in insertion order. The store only ever inserts ascending ids, so
  that order is modelled as ascending key order (`Storage.Ascending`).
- `Array.prototype.sort` is stable. It is modelled by a stable insertion sort, `Seqs.SortDesc`.

## Model

| member | source | states |
|---|---|---|
| Schema.OrderNumbersDistinct | server/storage.ts:861 | order numbers of one channel taken at different clock readings differ (the decimal rendering is injective) |
| Text.NatToStringInjective | server/storage.ts:861 | distinct naturals render as distinct decimal strings, so the clock part of an order number identifies the reading |
| Text.IntToStringInjective | client/src/pages/admin-dashboard.tsx:413 | distinct integers render as distinct strings, sign included |
| Text.IntToStringSign | client/src/pages/admin-dashboard.tsx:413 | the rendering starts with '-' exactly for negative numbers |
| Text.UpperAscii | server/storage.ts:861 | upper-casing maps each character on its own, turning the ASCII letters a-z into A-Z and keeping every other character, so the channel names "restaurant" and "bar" become "RESTAURANT" and "BAR" |
| Storage.Initial | server/storage.ts:117-123 | a fresh store, with every counter at 1, satisfies the store invariant |
| Storage.CreateOrder | server/storage.ts:860-875 | the new order takes the next id and the counter advances. Status and payment status are the input's values, or "pending" when those are falsy. A falsy table id or method becomes null. The order number is built from the service type and the creation time, the cancel reason is the input's, and there is no completion or cancellation time. Only that one key is added, and the store invariant is kept |
| Storage.CreateOrderAppends | server/storage.ts:873 | a new order joins the end of the store's iteration order |
| Storage.CreateOrderServerAssigned | shared/schema.ts:106-112 | id, order number, creation and completion stamps are server-assigned: two inputs for one channel, given the same store and clock, get the same values |
| Storage.SameMillisecondNumbersCollide | shared/schema.ts:50 | two orders of one channel created in the same millisecond get distinct ids but the same order number, although the column is declared unique |
| Storage.UpdateOrder | server/storage.ts:877-890 | an unknown id changes nothing. Otherwise only the four patchable fields change, and the supplied ones overwrite. A supplied or existing completion time is kept. A "completed" update that finds none stamps `now`, and the invariant is kept |
| Storage.CompletedAtStampedOnce | server/storage.ts:885-887 | a second "completed" update at a later time keeps the first completion stamp |
| Storage.CancelOrder | server/storage.ts:1053-1073 | succeeds exactly for a stored pending or preparing order. That order becomes "cancelled" with the time and reason and is otherwise unchanged. A refusal leaves the store as it was |
| Storage.CancelGuard | server/storage.ts:1059-1062 | a ready, completed or cancelled order is never touched by cancellation |
| Storage.GetOrders | server/storage.ts:839-848 | the listing is sorted newest first. It is a permutation of the filtered orders and contains exactly the stored orders that match the filters |
| Storage.GetOrdersTiesById | server/storage.ts:844-847 | orders created in the same millisecond keep their ascending-id order (stable sort) |
| Storage.GetOrderItems | server/storage.ts:892-896 | the listing holds exactly the stored items of the order. In a valid store their ids strictly ascend, so each item appears once, in the order it was inserted |
| Storage.FilterIdsIncrease | server/storage.ts:892-896 | filtering a listing whose ids strictly ascend keeps them strictly ascending |
| Storage.AscendingItemIds | server/storage.ts:892-896 | listing a map whose items carry their own keys, in key order, gives strictly ascending ids within the range |
| Storage.CreateOrderItem | server/storage.ts:898-907 | the item takes the next item id. A missing order id or menu id becomes 0 and the other fields are copied. The invariant is kept when the order id is allocated |
| Storage.RemoveOrders | server/storage.ts:1036-1050 | exactly the selected orders go, with exactly the items of deleted orders. Everything else, counters included, is unchanged |
| Storage.ResetCompletedOrders | server/storage.ts:1036-1050 | no completed order remains, every other order remains unchanged, and no item of a removed order survives. Pause records and all three id counters are unchanged |
| Storage.CleanupOldData | server/storage.ts:910-926 | every order created before the cutoff goes, with its items; newer orders and unrelated items stay unchanged. Pause records and all three id counters are unchanged |
| Storage.CountAscending | server/storage.ts:893-895 | filtering the ascending listing selects as many values as there are matching keys |
| Storage.OrderListMembers | server/storage.ts:840 | in a valid store, an order is listed exactly when it is stored under its id |
| PauseControl.GetPauseSettings | server/storage.ts:1076-1080 | in a valid store, the lookup finds a record exactly when the channel has one, and returns that stored record |
| PauseControl.GetPauseSettingsFinds | server/storage.ts:1077-1079 | a record stored for a channel is the one the lookup returns |
| PauseControl.UpsertPauseSettings | server/storage.ts:1083-1104 | an existing record of the channel keeps its id, its creation time and (when none is supplied) its start. Otherwise a record is created under the next id. The input's fields are written either way, orders are untouched, and one record per channel is kept |
| PauseControl.UpsertOthersUnchanged | server/storage.ts:1086-1092 | an upsert for one channel leaves every other channel's record as it was |
| PauseControl.UpsertTwiceOneRecord | server/storage.ts:1084-1093 | upserting the same input twice leaves a single record holding it |
| PauseControl.CheckPaused | server/storage.ts:1107-1143 | reports paused exactly when the channel's record is flagged, has a start, and `now` is before start plus duration. When paused, the store is untouched and the remaining minutes are the started minutes still to run. An expired pause is rewritten as not paused, keeping its start. Orders, items and all three counters never change, and no other channel's record changes |
| PauseControl.NotPausedIsFinal | server/storage.ts:1116-1134 | once the check reports not paused, every later check reports not paused and changes nothing |
| PauseControl.ExpiredPauseIsCleared | server/storage.ts:1125-1133 | the first check after a pause runs out clears the flag and keeps `pausedAt` |
| PauseControl.FloorMinutesBelow | server/storage.ts:1122-1126 | `floor(e / 60000) < n` exactly when `e < n * 60000`, which is how the remaining-minutes test becomes a deadline |
| PauseControl.StartedMinutes | server/storage.ts:1122-1123 | `n - floor(e / 60000)` minutes are the started minutes before the end: one fewer falls short of the gap, that many covers it |
| Analytics.SalesOrdersCount | server/storage.ts:941-958 | the order count equals the number of stored orders that are completed in the window (and of the channel when one is given) |
| Analytics.FirstSeen | server/storage.ts:962-975 | the names are distinct and are exactly the names occurring in the items |
| Analytics.FirstSeenInOrder | server/storage.ts:962-975 | the names are listed in the order in which each first occurs in the items, which is the Map's insertion order |
| Analytics.FirstSeenCount | server/storage.ts:962-975 | there are as many tally names as distinct item names |
| Analytics.Tally | server/storage.ts:962-975 | one tally entry per distinct item name, in first-seen (Map insertion) order |
| Analytics.TallySums | server/storage.ts:966-973 | each tally entry holds the total quantity and the total price-times-quantity of its name |
| Analytics.TopItems | server/storage.ts:977-980 | at most ten entries, sorted by non-increasing quantity and drawn from the tally; no entry left out has a larger quantity than a kept one |
| Analytics.TopItemsStable | server/storage.ts:979 | the kept entries are a prefix of the stable descending sort of the tally, and entries of equal quantity keep their tally (first-seen) order |
| Analytics.TopItemsOfTally | server/storage.ts:962-980 | the reported entries have distinct names, each occurring in the items, with that name's totals |
| Analytics.TopItemsLeftOut | server/storage.ts:977-980 | ten names are reported, or every name when fewer occur, and no name left out sold more units than any reported one |
| Analytics.Average | server/storage.ts:959 | the mean is 0 for no orders, otherwise it times the count is the total |
| Analytics.Report | server/storage.ts:954-982 | the count is the number of orders and the average satisfies the mean equation. The top items are sorted by units sold, ten of them or every name when fewer occur. They have distinct names with those names' totals, and no name left out sold more units than a reported one |
| Analytics.SalesAnalytics | server/storage.ts:928-983 | the report runs after the retention cleanup. Its count is the number of counted stored orders and its total is the sum of their amounts |
| Analytics.ChannelSalesAddUp | server/storage.ts:950-958 | in a store holding only restaurant and bar orders, the unrestricted total and count are the sums of the two channels' figures |
| Analytics.SplitByChannel | server/storage.ts:950-952 | orders of two distinct channels split, by sum and by count, into the orders of each |
| Analytics.SumByMethodSplits | server/storage.ts:1010-1023 | each method's running sum is the total of the orders paid by that method |
| Analytics.SumByMethodTotal | server/storage.ts:1025 | the report's total is the total of the orders paid by cash, UPI or card; any other method counts nowhere |
| Analytics.PaymentAnalytics | server/storage.ts:985-1033 | after the cleanup, the paid orders in the window split into per-method sums whose total counts only known methods |
| Routes.CreateItems | server/routes.ts:316-324 | one item per line under consecutive new ids; only those keys are added, earlier items and all orders are untouched, and the invariant is kept |
| Routes.CreateItemsRecords | server/routes.ts:317-323 | the recorded items copy the lines in order for the order: menu id, quantity, price and name |
| Routes.PostOrder | server/routes.ts:309-337 | a body that fails validation is refused with no change. Otherwise the order is stored and one item per readable line is recorded, in order. When reading stops at an unreadable element, the order and the items before it stay stored, nothing is broadcast and the answer is 400. Otherwise `new_order` is broadcast and 201 returned. The order counter advances by one. Items stored before the request are kept unchanged, only the new item ids are added, and pause records are never read or written |
| Routes.PriceMissingKeepsPrefix | server/routes.ts:315-324 | concretely: an items list whose second element has no price leaves the order and the first item stored, answered 400 with no broadcast |
| Routes.PostOrderItemsBeforeEvent | server/routes.ts:314-331 | when `new_order` is broadcast, the new order has exactly one item per line |
| Routes.ItemsOfNewOrder | server/routes.ts:316-324 | recording the lines of an order that has no items gives it exactly one item per line |
| Routes.ItemsOfOrderCount | server/storage.ts:892-896 | an order whose items sit exactly under n consecutive keys lists n items |
| Routes.PostOrderIgnoresPause | server/routes.ts:309-337 | the placement's response and broadcast are the same whatever the pause records say |
| Routes.PausedChannelStillAccepts | server/routes.ts:309-337 | concretely: the check reports the bar paused, and a bar order is still created with 201 |
| Routes.PostOrderGated | client/src/pages/customer-order.tsx:106-115 | corrected placement. While the channel's stored pause runs, it answers 503 with that pause and changes nothing. Otherwise exactly one order is added, under the next id, and every other order stays as it was. One item per readable line is recorded for it, while items stored earlier are kept unchanged. The pause records are those the check left. For readable items it is answered 201 and broadcast as `new_order` |
| Routes.GatedPlacementRespectsPause | server/storage.ts:1107-1143 | the gated placement creates an order exactly when the channel is not paused at the time of the request |
| Routes.PutOrder | server/routes.ts:339-360 | an unknown id answers 404 with no change and no broadcast. Otherwise the merged order is stored, returned and broadcast as `order_updated` with the requested status |
| Routes.PutPayment | server/routes.ts:373-395 | writes exactly the method and the payment status, returns the order and broadcasts `payment_updated`; an unknown id answers 404 |
| Routes.PutCancel | server/routes.ts:577-599 | cancels a pending or preparing order with the given reason, or the default reason when that is absent or empty. Only that order's status, cancellation time and reason change; every other order and the rest of the store stay as they were. Anything else answers 404 with no change and no broadcast |
| Routes.PostReset | server/routes.ts:485-499 | afterwards no completed order remains; answers with the reset message and broadcasts `orders_reset` |
| Routes.ResetIdempotent | server/routes.ts:485-499 | a second reset right after the first removes nothing more |
| Routes.GetPause | server/routes.ts:602-610 | reports paused exactly while the stored record is flagged, has a start, and its end is ahead. Then it gives that record's start, duration and reason, with the started minutes left, and changes nothing. An expired flagged record is rewritten as not paused; without a flagged record it answers not paused and changes nothing. Orders, items, all three counters and other channels' records never change |
| Routes.PostPause | server/routes.ts:612-637 | duration falls back to 30 and reason to "Rush hours" when falsy. The start is stamped only when pausing, so resuming keeps the previous start. The broadcast carries the raw request values, and the record becomes the channel's only record. Orders, items, their counters and other channels' records are unchanged |
| Routes.PauseThenCheck | server/routes.ts:612-622 | after pausing for m > 0 minutes, every check before the end reports paused, with m minutes left at the start |
| StaffWorkflow.FindOrder | client/src/pages/kitchen-dashboard.tsx:182-183 | finds an order of the list with that id, and finds none exactly when the list holds none |
| StaffWorkflow.ActiveOrders | client/src/pages/kitchen-dashboard.tsx:249 | the working list holds exactly the pending and ready orders |
| StaffWorkflow.CompletedShown | client/src/pages/kitchen-dashboard.tsx:250-304 | the completed orders shown are the first three of the list's completed orders, in list order, or all of them when there are fewer |
| StaffWorkflow.OnBoard | client/src/pages/bar-dashboard.tsx:249-250 | an order shown is pending, ready or completed; every pending or ready order is shown |
| StaffWorkflow.Actions | client/src/pages/kitchen-dashboard.tsx:410-537 | for each button, the exact condition under which the card offers it. A completed card offers none; step 1 goes with pending (or preparing on the kitchen card); cancel with pending; the selector with ready and no method; the receipt with ready, a method and not paid; step 3 with ready and paid |
| StaffWorkflow.MarkAsDone | client/src/pages/kitchen-dashboard.tsx:181-199 | an unknown id does nothing. A request is sent exactly for a pending order (to ready) or a ready, paid order (to completed). Anything else gets the error notice |
| StaffWorkflow.Apply | client/src/pages/kitchen-dashboard.tsx:201-209 | a request for a missing order answers 404 and changes nothing; the store invariant is kept |
| StaffWorkflow.PreparingStep1IsDead | client/src/pages/kitchen-dashboard.tsx:445-458 | the kitchen card's step 1 on a preparing order sends nothing, and such an order is never on the board |
| StaffWorkflow.PaidOnlyWithMethod | client/src/pages/kitchen-dashboard.tsx:490-502 | payment is marked received only for an order with a method, and the method sent is that one |
| StaffWorkflow.ClickKeepsConsistent | client/src/pages/bar-dashboard.tsx:181-209 | any offered button, handled by the server, keeps every order "completed only when paid, paid only with a method" |
| StaffWorkflow.SettledAfter | server/routes.ts:339-395 | each request a card can send leaves its order consistent |
| StaffWorkflow.PlacementKeepsConsistent | client/src/pages/customer-order.tsx:172-190 | an order placed as the ordering page places it keeps the store consistent |
| CustomerOrder.FindLine | client/src/pages/customer-order.tsx:136 | finds the cart entry of an item, and none exactly when the cart has none |
| CustomerOrder.AddToCart | client/src/pages/customer-order.tsx:134-147 | a held item gains one unit in place, and every other entry keeps its position and all its fields. A new item is appended with quantity 1. Other quantities are unchanged, and the cart stays valid |
| CustomerOrder.RemoveFromCart | client/src/pages/customer-order.tsx:149-162 | an absent item leaves the cart as it was. An item held more than once loses one unit in place, and every other entry keeps its position and fields. An item held once has its entry removed, and the rest of the cart keeps its order. Other quantities are unchanged and the cart stays valid |
| CustomerOrder.AddThenRemove | client/src/pages/customer-order.tsx:134-162 | adding an item then removing it gives back the original cart |
| CustomerOrder.BumpBack | client/src/pages/customer-order.tsx:138-156 | raising an item's quantity by d and lowering it by d gives back the cart |
| CustomerOrder.AddToCartTotals | client/src/pages/customer-order.tsx:164-170 | adding an item adds one unit and its price to the totals |
| CustomerOrder.RemoveFromCartTotals | client/src/pages/customer-order.tsx:164-170 | removing an item takes one unit and its price off the totals; an absent item changes nothing |
| CustomerOrder.BumpTotals | client/src/pages/customer-order.tsx:164-170 | changing an item's quantity by one changes the totals by one unit and its price |
| CustomerOrder.DropTotals | client/src/pages/customer-order.tsx:159-170 | dropping an entry takes its units and amount off the totals |
| CustomerOrder.DropValid | client/src/pages/customer-order.tsx:159 | dropping an item's entries keeps a cart valid |
| CustomerOrder.DropEntryAt | client/src/pages/customer-order.tsx:159 | filtering out an item held at a single index removes exactly that entry and keeps the others in order |
| CustomerOrder.DropFind | client/src/pages/customer-order.tsx:159 | after dropping an item, it is not found and every other lookup is unchanged |
| CustomerOrder.HandlePlaceOrder | client/src/pages/customer-order.tsx:172-190 | an empty cart sends nothing. Otherwise the order is "pending" with no payment fields and the cart's total and lines; table id, number and channel fall back to 0, "" and "" |
| CustomerOrder.TotalMatchesLines | client/src/pages/customer-order.tsx:175-185 | the submitted total equals the sum of the submitted lines |
| CustomerOrder.PlaceOrder | client/src/pages/customer-order.tsx:106-115 | nothing for an empty cart; a notice and no request exactly when the page judges the channel paused; otherwise the order from `handlePlaceOrder` |
| CustomerOrder.PageGateMatchesServer | client/src/pages/customer-order.tsx:109-111 | a page with a fetched status sends an order exactly when the server's check at that time finds the channel not paused |
| CustomerOrder.CountdownOf | client/src/pages/customer-order.tsx:86-104 | no countdown unless the status says paused. "Resuming soon" once the end has passed. Whole minutes while at least one remains, bracketing the time left. Otherwise whole seconds under 60, bracketing it too |
| CustomerOrder.CountdownWhilePaused | client/src/pages/customer-order.tsx:76-104 | the page counts down exactly while it judges the channel paused |
| CustomerOrder.CountdownAgainstServer | server/storage.ts:1122-1123 | the page's minutes equal the server's remaining minutes when the time left is a whole number of minutes, and are one fewer otherwise; the seconds display means one minute left on the server |
| CustomerOrder.FormatRemainingTime | client/src/pages/customer-order.tsx:86-104 | the label is empty exactly when the status does not say paused |
| CustomerOrder.CountdownText | client/src/pages/customer-order.tsx:94-103 | the countdown text is empty exactly when there is no countdown to show |
| CustomerOrder.LastSecondShowsZero | client/src/pages/customer-order.tsx:96-102 | under a second before the end, the label reads "Service resumes in 0 seconds" |
| CustomerOrder.MinuteSecondSplit | client/src/pages/customer-order.tsx:96-97 | floored minutes and seconds bracket the time left |
| PauseView.IsServicePaused | client/src/pages/customer-order.tsx:76-84 | a page judges paused only for a paused status, and then exactly while the end is still ahead |
| PauseView.ViewAgreesWithServer | client/src/pages/admin-dashboard.tsx:416-424 | a status fetched earlier and read later agrees with the server's check at that later time, when nothing else has written the record |
| AdminPause.DurationFromInput | client/src/pages/admin-dashboard.tsx:448 | the duration field is the parsed number, or 30 when parsing fails or yields 0; it is never 0 |
| AdminPause.HandleTogglePause | client/src/pages/admin-dashboard.tsx:395-400 | the toggle asks for the opposite of the state passed in, with the form's duration and message |
| AdminPause.ToggleFlips | client/src/pages/admin-dashboard.tsx:503 | for a positive duration, after the toggle the server reports the channel paused exactly when the page showed it active |
| AdminPause.FormDurationKept | server/routes.ts:619 | the duration the form sends is never replaced by the server's fallback |
| AdminPause.AdminCountdownOf | client/src/pages/admin-dashboard.tsx:402-414 | "Expired" exactly once the end has passed; otherwise minutes and seconds under 60 that bracket the time left |
| AdminPause.AdminCountdownWhilePaused | client/src/pages/admin-dashboard.tsx:402-424 | the admin page shows a time left exactly while it judges the channel paused |
| AdminPause.AdminAgreesWithCustomer | client/src/pages/admin-dashboard.tsx:402-414 | the admin and customer labels agree: expired with resuming soon, the same minutes, and the same seconds under a minute |
| Scenarios.PlaceThenProgress | client/src/pages/kitchen-dashboard.tsx:181-203 | a table-5 order placed, delivered, paid by UPI and completed ends completed and stamped, with the store consistent throughout |
| Scenarios.PausedChannelRejects | server/routes.ts:612-637 | a 30-minute bar pause turns a bar order away at once; 31 minutes later the order is taken and the channel reads not paused |
| Scenarios.CancelBlockedAfterReady | server/storage.ts:1059-1062 | once an order is ready, its cancellation is refused and it stays ready |
| Seqs.SortDesc | server/storage.ts:844-847 | the insertion sort's result is sorted by non-increasing key and is a permutation of the input |
| Seqs.SortDescStable | server/storage.ts:979 | the sort is stable: the elements with any one key keep their relative order |
| Seqs.SortDescDistinct | server/storage.ts:977-980 | sorting a sequence without repetitions gives one without repetitions |
| Seqs.FilterConcat | server/storage.ts:941-952 | filtering distributes over concatenation |

## Left out

- Authentication (`requireAuth`, login, sessions) is not modelled; every staff request is taken as authorised.
- The WebSocket transport is not modelled. A broadcast is the `event` of a reply; delivery to the displays is out of scope.
- Request parsing is not modelled. JSON bodies, `parseInt` of path ids and `insertOrderSchema.parse` are represented by an `Option<InsertOrder>` (None for a rejected body). The `items` text is represented by `ItemsPayload`: the readable line items, and whether reading stops at an unreadable element. A line's missing `id`, `quantity` or `name` (stored as 0, `undefined` and `undefined` by the source) is not modelled; each line carries all four fields.
- Text.UpperAscii: upper-cases only the ASCII letters a-z. JavaScript's `toUpperCase` also maps other letters and can change the length ("ß" becomes "SS"). The ordering page only sends "restaurant" or "bar", for which both agree.
- Decimal money as text and `parseFloat` are represented by integer hundredths; floating-point rounding of the totals is not modelled.
- The analytics route's date-window parsing (routes.ts:398-484) is not modelled: `start` and `end` are parameters.
- The retention cleanup's "30 days ago" depends on the host's calendar and time zone, so it is a `cutoff` parameter.
- The second registration of `PUT /api/orders/:id/payment` (routes.ts:547-575) is shadowed by the first (routes.ts:373) and never runs, so it is not modelled.
- The cancel buttons' `confirm()` dialog is taken as accepted. A declined dialog sends nothing and needs no model.
- Toasts, loading states, query refetching and all rendering are not modelled, beyond the countdown labels.
- The menu, tables, QR codes, users, seed data and dashboard statistics are outside the order-lifecycle core.
- Routes.PutOrder: the body may carry any order field; the model carries the four fields the pages send (status, payment method, payment status, completion time).
- Routes.PutPayment: a request without `paymentStatus` (which would write `undefined`) is not modelled; the pages always send one.
- StaffWorkflow.ClickKeepsConsistent: assumes the card shows the order as stored. Two staff acting on stale snapshots, and admin requests outside the dashboards, can break the invariant.
- The order number's uniqueness constraint is not enforced by the in-memory store. `Storage.SameMillisecondNumbersCollide` exhibits the collision; the model does not add a check that the store lacks.
- Concurrency between requests is not modelled. Each request is one atomic transition, as the single-threaded event loop runs a handler between awaits on in-memory data.
- Negative or zero pause durations are accepted as the server accepts them; the properties that need a running pause ask for a positive duration.

## Findings

| source | as written | input that shows it | evidently intended | confidence | as-written member | corrected member |
|---|---|---|---|---|---|---|
| server/routes.ts:309-337 | `POST /api/orders` never consults the pause check; only the ordering page refuses to submit while paused | a bar pause started a minute earlier for 30 minutes, then a bar order posted directly to the server: answered 201 and stored | a paused channel refuses placement on the server too (503 with the pause status), as the pause feature and the page's gate intend | not executed | Routes.PostOrder (with Routes.PausedChannelStillAccepts and Routes.PostOrderIgnoresPause) | Routes.PostOrderGated (with Routes.GatedPlacementRespectsPause) |
