# Event-driven order pipeline: stock ledger, delay scheduler and order table

This project models the three pieces of sequential logic in an event-driven
order pipeline. Each order is created over HTTP, and it moves on as the
inventory and payment services publish events about it.

- **Inventory service** (`InventoryService`, `KeyOrder`). The `InventoryStore` holds a map
  from item id to item record, seeded with four items of 9999999 units each.
  - `check_and_reserve` is an all-or-nothing reservation over several lines. It
    locks the distinct requested ids in ascending string order. It then validates
    every line against the stock as it stood on entry and, if all pass, subtracts
    every line. Every lock is released on every path.
  - `get_quantity` reads one item under its lock and gives 0 for an unknown id.
  - The per-item locks are ghost state: a lock table that grows on first use, and
    the set of locks held, and a log of acquisitions. Acquiring a lock is
    allowed only above every lock already held, so the verifier checks the
    sorted-acquisition discipline. Reading or changing an item's stock
    requires its lock to be held.
- **Delay scheduler** (`Scheduler`). `DelayScheduler` keeps a binary min-heap
  of `(run_at, callback)` entries in an array, plus a shutdown flag.
  - `call_later` pushes an entry due at `now + delay`, or does nothing after
    shutdown.
  - One iteration of the background loop is `Step(now)`. It stops after
    shutdown, waits while nothing is due, and otherwise pops an earliest entry and
    fires its callback.
  - `shutdown` raises the flag.
- **Order service** (`OrderService`). The in-memory `orders` table is
  `OrderTable`.
  - `create_order` rejects a request that lacks a customer id or items (400).
    It answers 500 with the `KeyError` text when an item lacks a price or a
    quantity. Otherwise it stores a pending order with total Σ price × quantity,
    publishes it, and answers 202.
  - `get_order_status` reads the table.
  - The two event handlers overwrite a known order's status: `inventory.reserved`,
    `inventory.insufficient`, `payment.processed` and `payment.failed`. The
    listener's callback sends an event to the inventory handler exactly when its
    type contains `inventory`.

Two behaviours of the code are easy to miss:

- The refusal texts are `Item <id> not found` and `Insufficient quantity for <id>`.
- A request that repeats an item id is checked line by line against the undiminished stock, and then every line is subtracted. Such a request can therefore drive stock negative. Stock stays non-negative only for requests with distinct ids (`ReserveKeepsStockNonNegative`). `DuplicateIdsCanOverdraw` gives a concrete request on the seeded store that ends at -1.

## Model

| member | source | states |
|---|---|---|
| InventoryService.Seed | services/inventory_service/inventory_service.py:15-20 | the store starts with exactly the four ids item_001..item_004, each with 9999999 units |
| InventoryService.InventoryStore.constructor | services/inventory_service/inventory_service.py:14-22 | a new store holds the seed map, an empty lock table, no held lock and an empty acquisition log |
| InventoryService.MessageIdentifiesFailure | services/inventory_service/inventory_service.py:43-47 | the refusal text determines the kind of failure and the item id it names |
| KeyOrder.SortedDistinct | services/inventory_service/inventory_service.py:30 | `sorted(set(ids))` is strictly ascending in Python string order and holds exactly the requested ids |
| KeyOrder.SortedIsCanonical | services/inventory_service/inventory_service.py:30 | two strictly ascending lists with the same ids are equal, so the lock order depends only on the set of ids |
| KeyOrder.SharedKeysSameOrder | services/inventory_service/inventory_service.py:29-35 | two lock orders take any two ids they share in the same relative order |
| KeyOrder.BelowTransitive | services/inventory_service/inventory_service.py:30 | Python's string `<` is transitive (with BelowIrreflexive and BelowTotal: a strict total order) |
| InventoryService.LockOrder | services/inventory_service/inventory_service.py:30-31 | the locks of a request are its distinct item ids, strictly ascending |
| InventoryService.FirstFailureNoneIffAllPass | services/inventory_service/inventory_service.py:39-47 | validation passes iff every line names a known item with at least the requested quantity in stock |
| InventoryService.FirstFailureIsFirstFailingLine | services/inventory_service/inventory_service.py:39-47 | a refusal reports the first failing line in request order; for that line not-found is checked before the quantity |
| InventoryService.FirstFailureHasWitness | services/inventory_service/inventory_service.py:39-47 | every refusal comes from a first failing line |
| InventoryService.DebitSubtractsDemand | services/inventory_service/inventory_service.py:50-53 | the reserve pass keeps the set of items and names; each item loses the sum of the quantities of all lines naming it, unnamed items keep theirs |
| InventoryService.DemandOfDistinct | services/inventory_service/inventory_service.py:50-53 | with distinct ids an item's total demand is the quantity of its one line |
| InventoryService.ReserveKeepsStockNonNegative | services/inventory_service/inventory_service.py:39-53 | with non-negative stock and distinct ids, a reservation that passes validation leaves every quantity non-negative |
| InventoryService.DuplicateIdsCanOverdraw | services/inventory_service/inventory_service.py:39-53 | lines item_001×9999999 and item_001×1 pass validation on the seed store and leave item_001 at -1 |
| InventoryService.InventoryStore.Acquire | services/inventory_service/inventory_service.py:34-35 | a lock may be taken only above every lock held, and is then held and appended to the acquisition log; it was not held before |
| InventoryService.InventoryStore.AcquireAll | services/inventory_service/inventory_service.py:31-35 | the lock table gains the requested ids and exactly those locks are held; the acquisition log gains exactly the given ascending order |
| InventoryService.InventoryStore.ReleaseAll | services/inventory_service/inventory_service.py:57-60 | releasing the lock order leaves no lock held |
| InventoryService.InventoryStore.Validate | services/inventory_service/inventory_service.py:38-47 | requires every line's lock to be held; the validation loop returns the first line's failure in request order, or none, against the unchanged stock |
| InventoryService.InventoryStore.ReserveAll | services/inventory_service/inventory_service.py:49-54 | requires every line's lock to be held; the reserve loop leaves the map equal to `Debit` of the old map |
| InventoryService.InventoryStore.CheckAndReserve | services/inventory_service/inventory_service.py:24-60 | the acquisition log gains exactly the sorted distinct ids, in order, and validation and reservation run while all of them are held; none is held on return; success iff validation passes; on refusal the reason names the first failing line and the map is unchanged; on success the reason is None and every line is subtracted |
| InventoryService.InventoryStore.ReadQuantity | services/inventory_service/inventory_service.py:65 | requires the id's lock to be held; the stored quantity of a known id and 0 otherwise |
| InventoryService.InventoryStore.GetQuantity | services/inventory_service/inventory_service.py:62-65 | the id's lock is taken once (logged), the read happens while it is held, and it is released; returns the stored quantity of a known id and 0 otherwise, without changing the map |
| Scheduler.HeapRootIsEarliest | shared/delay_scheduler.py:57 | the root of the heap is due no later than any pending entry |
| Scheduler.FiredInTurnIsOrdered | shared/delay_scheduler.py:57-65 | entries fired one after another, with no insertion between, come in non-decreasing due time and are exactly the entries no longer pending |
| Scheduler.FiredInTurnAppend | shared/delay_scheduler.py:57-65 | firing an earliest entry of what is left extends a run of fires |
| Scheduler.RunDue | shared/delay_scheduler.py:47-65 | loop iterations at one time fire a run of earliest entries, all due and in non-decreasing due time, until the loop stops (iff shut down) or waits (iff nothing left is due) |
| Scheduler.OnlyFirstDueIsEarliest | shared/delay_scheduler.py:57-65 | an entry due strictly before all others is the only earliest entry |
| Scheduler.SiftUp | shared/delay_scheduler.py:44 | the heap insertion sift restores heap order and keeps the same entries |
| Scheduler.SiftDown | shared/delay_scheduler.py:65 | the heap removal sift restores heap order and keeps the same entries |
| Scheduler.DelayScheduler.constructor | shared/delay_scheduler.py:25-31 | a new scheduler has no pending entry and is not shut down |
| Scheduler.AddEntry | shared/delay_scheduler.py:44 | storing an entry after the heap and letting it rise leaves a heap of the old entries plus the new one |
| Scheduler.DelayScheduler.Push | shared/delay_scheduler.py:44 | `heappush` keeps the heap valid and adds exactly the new entry |
| Scheduler.TakeRoot | shared/delay_scheduler.py:65 | removing the heap root returns an earliest entry and leaves a heap of the other entries |
| Scheduler.DelayScheduler.Pop | shared/delay_scheduler.py:65 | `heappop` removes and returns an earliest pending entry and keeps the heap valid |
| Scheduler.DelayScheduler.CallLater | shared/delay_scheduler.py:36-45 | after shutdown nothing changes; otherwise exactly one entry due at now + delay is added; the heap stays valid and the flag is untouched |
| Scheduler.DelayScheduler.Step | shared/delay_scheduler.py:47-65 | stops iff shut down, firing nothing; waits iff not shut down and nothing pending is due; otherwise fires an earliest pending entry, which is due, and removes exactly it |
| Scheduler.DelayScheduler.Shutdown | shared/delay_scheduler.py:73-77 | raises the flag and keeps the pending entries |
| Scheduler.StepFiresFirst | shared/delay_scheduler.py:57-65 | when one pending entry is due first and is due by now, a step fires exactly that entry |
| Scheduler.ScheduleThree | shared/delay_scheduler.py:36-45 | three `call_later` calls from time 0 leave exactly the three entries pending |
| Scheduler.DrainAtFive | shared/delay_scheduler.py:57-65 | at time 5 the entries due at 1, 2 and 3 fire one per step in due-time order, leaving nothing pending |
| Scheduler.FiresByDueTime | shared/delay_scheduler.py:36-65 | entries scheduled 3, 1 and 2 ahead do not fire at time 0, fire in order 1, 2, 3 at time 5, and then the loop waits |
| Scheduler.ShutdownDropsEntries | shared/delay_scheduler.py:36-55 | after shutdown a new entry is dropped and the loop stops without firing the entry still pending |
| OrderService.TotalIsSumOfAmounts | services/order_service/order_service.py:30 | the total succeeds iff every item has a price and a quantity, and is then the sum of price × quantity |
| OrderService.TotalReportsFirstMissingKey | services/order_service/order_service.py:30 | a failing total raises for the first incomplete item, naming `price` before `quantity` |
| OrderService.TotalNonNegative | services/order_service/order_service.py:30 | non-negative prices and quantities give a non-negative total |
| OrderService.Contains | services/order_service/order_service.py:101 | `pat in s` holds iff `pat` occurs at some index of `s` |
| OrderService.InventoryPrefixRoutesToInventory | services/order_service/order_service.py:100-103 | every type beginning with `inventory` goes to the inventory handler |
| OrderService.NoLetterVRoutesToPayment | services/order_service/order_service.py:100-103 | a type without the letter v, such as `payment.processed` or `payment.failed`, goes to the payment handler |
| OrderService.RoutesInventoryTypes | services/order_service/order_service.py:97-103 | the subscribed types `inventory.reserved` and `inventory.insufficient` reach the inventory handler |
| OrderService.RoutesPaymentTypes | services/order_service/order_service.py:97-103 | the subscribed types `payment.processed` and `payment.failed` reach the payment handler |
| OrderService.InventoryOutcome | services/order_service/order_service.py:64-70 | an inventory event changes only status and failure reason, to `inventory_reserved` or `failed` |
| OrderService.PaymentOutcome | services/order_service/order_service.py:80-87 | a payment event changes only status, payment id and failure reason, to `completed` or `payment_failed` |
| OrderService.DeliverKeepsBooking | services/order_service/order_service.py:58-103 | delivering an event never touches id, customer, items or total; events routed to the inventory handler keep the payment id |
| OrderService.DeliverInventoryTypes | services/order_service/order_service.py:64-70 | `inventory.reserved` sets `inventory_reserved`; `inventory.insufficient` sets `failed` with reason `Insufficient inventory` |
| OrderService.DeliverPaymentTypes | services/order_service/order_service.py:80-87 | `payment.processed` sets `completed` and copies the payment id; `payment.failed` sets `payment_failed` with the event's reason or `Unknown` |
| OrderService.FailedOrderCanComplete | services/order_service/order_service.py:58-88 | transitions are not guarded by status: a failed order becomes completed on `payment.processed` and keeps its failure reason |
| OrderService.OrderTable.constructor | services/order_service/order_service.py:14 | the table starts empty |
| OrderService.OrderTable.CreateOrder | services/order_service/order_service.py:18-47 | a request without customer id or items is refused with 400; a missing price or quantity gives 500 with the key text; refusals change nothing; otherwise a pending order with the total is stored under the fresh id and published, answered 202 with status `pending` |
| OrderService.OrderTable.GetOrder | services/order_service/order_service.py:50-55 | the stored record under its own id for a known id, None (404) otherwise |
| OrderService.OrderTable.HandleInventoryEvents | services/order_service/order_service.py:58-70 | a known order becomes its InventoryOutcome; an unknown order changes nothing; the table stays consistent |
| OrderService.OrderTable.HandlePaymentEvents | services/order_service/order_service.py:74-87 | a known order becomes its PaymentOutcome; an unknown order changes nothing; the table stays consistent |
| OrderService.OrderTable.OnEvent | services/order_service/order_service.py:100-103 | routes by `Route`: the named order becomes its Deliver outcome, the key set and all other orders are unchanged, an unknown order changes nothing |

## Left out

- Real threading is left out: `RLock` blocking, `Condition.wait`/`notify`, the scheduler's thread and `join(timeout=5)`, and the thread pools. Locks are a ghost held-set. The model proves the sorted-acquisition discipline, not deadlock freedom under true concurrency.
- The message bus (`shared/event_bus.py`) is not part of this model. Publishing `order.created` is recorded in `published`, and events arrive as method arguments.
- Wall-clock time and float delays are not modelled. The clock is an integer `now` passed to `CallLater` and `Step`, and the delay is an integer.
- Float prices are not modelled; prices and quantities are integers.
- Scheduler.DelayScheduler.Pop: only `run_at` is compared, and entries with equal due times come out in no specified order. In the code, a tie makes the heap compare the callbacks next, which can raise `TypeError`. Raised in `heappush` (shared/delay_scheduler.py:44), it reaches the caller of `call_later`. Raised in `heappop` (line 65, outside the `try`), it ends the scheduler thread. Neither failure is modelled.
- Scheduler.DelayScheduler.Pop: the removal sift is the textbook sift-down. `heapq`'s bottom-up variant yields the same entries and the same earliest entry, but may arrange the array differently.
- Running the callback and logging its exceptions are not modelled; a fired entry's task id is returned as `Fire(entry)`.
- The scheduler's singleton construction (`__new__`/`_initialized`) is left out.
- Scheduler.DelayScheduler.Shutdown models the flag only; waking the loop and joining the thread are left out.
- services/payment_service/payment_service.py, services/notification_service/notification_service.py and test_client.py are not part of this model.
- Flask routing and JSON encoding are left out.
- `uuid4` is not modelled; the new order id is a parameter.
- Logging and environment configuration are left out.
- OrderService.OrderTable.CreateOrder: a body that is not a JSON object, a non-string customer id and items that are not objects are not modelled. So are exceptions other than a missing `price` or `quantity` key, including a failing publish after the order is stored.
- OrderService.EventData: a missing `order_id` in an event's data, which raises in the handler, is not modelled. A JSON `null` payment id or reason is treated like an absent key.
- InventoryService.InventoryStore.CheckAndReserve: a request line missing `item_id` or `quantity`, which raises before any change, is not modelled.
