/** The order service's bookkeeping: the in-memory `orders` table, the
    `POST /orders` handler that validates a request and stores a pending
    order with its total, the point read `GET /orders/<id>`, the two event
    handlers that move an order's status, and the listener's dispatch on the
    event type. Fresh order ids come from outside (`uuid4`) and are a
    parameter; publishing `order.created` is recorded in `published`. */
module OrderService {
  import opened Wrappers

  /** One requested line as it arrives in the JSON body; any of its keys
      may be missing. The order service stores and forwards `item_id`
      without reading it. */
  datatype LineItem = LineItem(itemId: Option<string>, price: Option<int>, quantity: Option<int>)

  /** The JSON body of `POST /orders`; a missing key is `None`. */
  datatype OrderRequest = OrderRequest(customerId: Option<string>, items: Option<seq<LineItem>>)

  datatype Status = Pending | InventoryReserved | Failed | Completed | PaymentFailed

  /** The status as the service spells it in the order record. */
  function StatusName(s: Status): string
  {
    match s
    case Pending => "pending"
    case InventoryReserved => "inventory_reserved"
    case Failed => "failed"
    case Completed => "completed"
    case PaymentFailed => "payment_failed"
  }

  /** The order record. `failureReason` is `None` while the record has no
      `failure_reason` key; `paymentId` is `None` while it has no
      `payment_id` key and `Some(None)` when that key holds `None`. */
  datatype Order = Order(
    orderId: string,
    customerId: string,
    items: seq<LineItem>,
    totalAmount: int,
    status: Status,
    failureReason: Option<string>,
    paymentId: Option<Option<string>>)

  /** The HTTP answer of `POST /orders`: 202 with the new id and status, or
      an error code with its message. */
  datatype Response =
    | Accepted(orderId: string, status: string, message: string)
    | Rejected(code: int, error: string)

  /** The `data` part of an event; absent keys are `None`. */
  datatype EventData = EventData(orderId: string, paymentId: Option<string>, reason: Option<string>)

  datatype Event = Event(eventType: string, data: EventData)

  /** The event types the order service subscribes to. */
  const Subscribed: seq<string> :=
    ["inventory.reserved", "inventory.insufficient", "payment.processed", "payment.failed"]

  /** Both required fields are present and truthy: a non-empty customer id
      and a non-empty item list. */
  predicate HasRequiredFields(req: OrderRequest)
  {
    req.customerId.Some? && req.customerId.value != [] &&
    req.items.Some? && req.items.value != []
  }

  /** `item['price'] * item['quantity']`, or the key whose lookup raises
      `KeyError` (`price` is looked up first). */
  function LineAmount(item: LineItem): Result<int, string>
  {
    if item.price.None? then Err("price")
    else if item.quantity.None? then Err("quantity")
    else Ok(item.price.value * item.quantity.value)
  }

  /** The generator sum over the items, left to right: it stops at the first
      item whose amount raises. */
  function Total(items: seq<LineItem>): Result<int, string>
  {
    if items == [] then Ok(0)
    else
      match LineAmount(items[0])
      case Err(k) => Err(k)
      case Ok(a) =>
        match Total(items[1..])
        case Err(k) => Err(k)
        case Ok(t) => Ok(a + t)
  }

  /** Reference sum of `price * quantity` over complete items, taken from
      the back. */
  ghost function AmountSum(items: seq<LineItem>): int
    requires forall i :: 0 <= i < |items| ==> LineAmount(items[i]).Ok?
  {
    if items == [] then 0
    else AmountSum(items[..|items| - 1]) + LineAmount(items[|items| - 1]).value
  }

  lemma {:induction false} AmountSumPrepend(items: seq<LineItem>)
    requires items != []
    requires forall i :: 0 <= i < |items| ==> LineAmount(items[i]).Ok?
    ensures AmountSum(items) == LineAmount(items[0]).value + AmountSum(items[1..])
    decreases |items|
  {
    if |items| > 1 {
      var init := items[..|items| - 1];
      AmountSumPrepend(init);
      assert init[1..] == items[1..][..|items[1..]| - 1];
      assert init[0] == items[0];
    }
  }

  /** The sum succeeds exactly when every item has both a price and a
      quantity, and then it is the sum of their products. */
  lemma {:induction false} TotalIsSumOfAmounts(items: seq<LineItem>)
    ensures Total(items).Ok? <==> forall i :: 0 <= i < |items| ==> LineAmount(items[i]).Ok?
    ensures Total(items).Ok? ==> Total(items).value == AmountSum(items)
    decreases |items|
  {
    if items != [] {
      TotalIsSumOfAmounts(items[1..]);
      assert forall i :: 0 < i < |items| ==> items[i] == items[1..][i - 1];
      if Total(items).Ok? {
        AmountSumPrepend(items);
      }
    }
  }

  /** Index `k` holds the first item whose amount raises. */
  ghost predicate FirstIncompleteAt(items: seq<LineItem>, k: int)
  {
    0 <= k < |items| && LineAmount(items[k]).Err? &&
    forall i :: 0 <= i < k ==> LineAmount(items[i]).Ok?
  }

  /** A failing sum reports the key missing from the first incomplete item. */
  lemma {:induction false} TotalReportsFirstMissingKey(items: seq<LineItem>, k: int)
    requires FirstIncompleteAt(items, k)
    ensures Total(items) == Err(LineAmount(items[k]).error)
    decreases |items|
  {
    if k > 0 {
      assert FirstIncompleteAt(items[1..], k - 1) by {
        assert forall i :: 0 <= i < k - 1 ==> items[1..][i] == items[i + 1];
      }
      TotalReportsFirstMissingKey(items[1..], k - 1);
    }
  }

  /** With non-negative prices and quantities the total is non-negative. */
  lemma {:induction false} TotalNonNegative(items: seq<LineItem>)
    requires forall i :: 0 <= i < |items| ==> items[i].price.GetOr(0) >= 0 && items[i].quantity.GetOr(0) >= 0
    ensures Total(items).Ok? ==> Total(items).value >= 0
    decreases |items|
  {
    if items != [] {
      TotalNonNegative(items[1..]);
      var it := items[0];
      if it.price.Some? && it.quantity.Some? {
        assert it.price.value * it.quantity.value >= 0;
      }
    }
  }

  /** `pat` starts at index `i` of `s`. */
  predicate OccursAt(s: string, pat: string, i: int)
  {
    0 <= i <= |s| && pat <= s[i..]
  }

  /** Python's `pat in s` on strings. */
  function Contains(s: string, pat: string): (b: bool)
    ensures b <==> exists i :: OccursAt(s, pat, i)
    decreases |s|
  {
    if pat <= s then
      assert OccursAt(s, pat, 0);
      true
    else if s == [] then false
    else
      var rest := Contains(s[1..], pat);
      assert forall i :: 0 <= i <= |s| - 1 ==> s[1..][i..] == s[i + 1..];
      assert forall i :: OccursAt(s[1..], pat, i) ==> OccursAt(s, pat, i + 1);
      assert forall i :: OccursAt(s, pat, i) ==> i == 0 || OccursAt(s[1..], pat, i - 1);
      rest
  }

  /** A string lacking some character of `pat` cannot contain `pat`. */
  lemma MissingCharRulesOut(s: string, pat: string, k: int)
    requires 0 <= k < |pat| && pat[k] !in s
    ensures !Contains(s, pat)
  {
    forall i | 0 <= i <= |s| ensures !OccursAt(s, pat, i) {
      if i + k < |s| {
        assert s[i..][k] == s[i + k];
      }
    }
  }

  /** The handler the listener hands an event to. */
  datatype Handler = InventoryHandler | PaymentHandler

  /** The listener's dispatch: the inventory handler for any event type
      containing `inventory`, the payment handler for every other type. */
  function Route(eventType: string): Handler
  {
    if Contains(eventType, "inventory") then InventoryHandler else PaymentHandler
  }

  /** Every `inventory.*` type goes to the inventory handler. */
  lemma InventoryPrefixRoutesToInventory(t: string)
    requires "inventory" <= t
    ensures Route(t) == InventoryHandler
  {
    assert OccursAt(t, "inventory", 0);
  }

  /** A type without the letter `v`, such as every `payment.*` type the
      service subscribes to, goes to the payment handler. */
  lemma NoLetterVRoutesToPayment(t: string)
    requires 'v' !in t
    ensures Route(t) == PaymentHandler
  {
    MissingCharRulesOut(t, "inventory", 2);
  }

  /** The subscribed inventory types reach the inventory handler. */
  lemma RoutesInventoryTypes()
    ensures Route(Subscribed[0]) == InventoryHandler
    ensures Route(Subscribed[1]) == InventoryHandler
  {
    InventoryPrefixRoutesToInventory(Subscribed[0]);
    InventoryPrefixRoutesToInventory(Subscribed[1]);
  }

  /** The subscribed payment types reach the payment handler. */
  lemma RoutesPaymentTypes()
    ensures Route(Subscribed[2]) == PaymentHandler
    ensures Route(Subscribed[3]) == PaymentHandler
  {
    NoLetterVRoutesToPayment(Subscribed[2]);
    NoLetterVRoutesToPayment(Subscribed[3]);
  }

  /** The two records agree on everything the event handlers leave alone:
      id, customer, items and total. */
  predicate SameBooking(a: Order, b: Order)
  {
    a.orderId == b.orderId && a.customerId == b.customerId &&
    a.items == b.items && a.totalAmount == b.totalAmount
  }

  /** What `handle_inventory_events` makes of a known order's record. */
  function InventoryOutcome(o: Order, ev: Event): (r: Order)
    ensures SameBooking(r, o) && r.paymentId == o.paymentId
    ensures r.status != o.status ==> r.status in {InventoryReserved, Failed}
  {
    if ev.eventType == "inventory.reserved" then o.(status := InventoryReserved)
    else if ev.eventType == "inventory.insufficient" then
      o.(status := Failed, failureReason := Some("Insufficient inventory"))
    else o
  }

  /** What `handle_payment_events` makes of a known order's record. */
  function PaymentOutcome(o: Order, ev: Event): (r: Order)
    ensures SameBooking(r, o)
    ensures r.status != o.status ==> r.status in {Completed, PaymentFailed}
  {
    if ev.eventType == "payment.processed" then
      o.(status := Completed, paymentId := Some(ev.data.paymentId))
    else if ev.eventType == "payment.failed" then
      o.(status := PaymentFailed, failureReason := Some(ev.data.reason.GetOr("Unknown")))
    else o
  }

  /** What the listener's callback makes of a known order's record. */
  function Deliver(o: Order, ev: Event): Order
  {
    if Route(ev.eventType) == InventoryHandler then InventoryOutcome(o, ev) else PaymentOutcome(o, ev)
  }

  /** Delivering an event never touches the booking itself, and an event
      routed to the inventory handler never touches the payment id. */
  lemma DeliverKeepsBooking(o: Order, ev: Event)
    ensures SameBooking(Deliver(o, ev), o)
    ensures Route(ev.eventType) == InventoryHandler ==> Deliver(o, ev).paymentId == o.paymentId
  {
  }

  /** The two subscribed inventory types: `inventory.reserved` reserves the
      order, `inventory.insufficient` fails it with the fixed reason. */
  lemma DeliverInventoryTypes(o: Order, ev: Event)
    ensures ev.eventType == Subscribed[0] ==> Deliver(o, ev) == o.(status := InventoryReserved)
    ensures ev.eventType == Subscribed[1] ==>
      Deliver(o, ev) == o.(status := Failed, failureReason := Some("Insufficient inventory"))
  {
    RoutesInventoryTypes();
  }

  /** The two subscribed payment types: `payment.processed` completes the
      order and copies the payment id, `payment.failed` records the event's
      reason or `Unknown`. */
  lemma DeliverPaymentTypes(o: Order, ev: Event)
    ensures ev.eventType == Subscribed[2] ==>
      Deliver(o, ev) == o.(status := Completed, paymentId := Some(ev.data.paymentId))
    ensures ev.eventType == Subscribed[3] ==>
      Deliver(o, ev) == o.(status := PaymentFailed, failureReason := Some(ev.data.reason.GetOr("Unknown")))
  {
    RoutesPaymentTypes();
  }

  /** Handlers are not guarded by the current status: a failed order still
      moves on when a later event arrives, and keeps its failure reason. */
  lemma FailedOrderCanComplete(o: Order, pid: string)
    requires o.status == Failed
    ensures var n := Deliver(o, Event("payment.processed", EventData(o.orderId, Some(pid), None)));
      n.status == Completed && n.failureReason == o.failureReason
  {
    NoLetterVRoutesToPayment("payment.processed");
  }

  class OrderTable {
    /** `orders`: order id to order record. */
    var orders: map<string, Order>
    /** The orders published as `order.created`, oldest first. */
    var published: seq<Order>

    /** Every record sits under its own id, has a non-empty customer and
        item list, and carries the total of its items. */
    ghost predicate Valid()
      reads this
    {
      forall id | id in orders ::
        orders[id].orderId == id && orders[id].customerId != [] && orders[id].items != [] &&
        Total(orders[id].items) == Ok(orders[id].totalAmount)
    }

    constructor ()
      ensures Valid() && orders == map[] && published == []
    {
      orders := map[];
      published := [];
    }

    /** `create_order` with `freshId` drawn from `uuid4`: a request lacking
        a customer or items is refused with 400; an item lacking a price or
        quantity is refused with 500 and the `KeyError` text; otherwise a
        pending order with the items' total is stored under `freshId`,
        published, and answered with 202. Refusals change nothing. */
    method CreateOrder(req: OrderRequest, freshId: string) returns (resp: Response)
      requires Valid()
      modifies this
      ensures Valid()
      ensures !HasRequiredFields(req) ==>
        resp == Rejected(400, "Missing required fields") &&
        orders == old(orders) && published == old(published)
      ensures HasRequiredFields(req) && Total(req.items.value).Err? ==>
        resp == Rejected(500, "'" + Total(req.items.value).error + "'") &&
        orders == old(orders) && published == old(published)
      ensures HasRequiredFields(req) && Total(req.items.value).Ok? ==>
        var order := Order(freshId, req.customerId.value, req.items.value,
                           Total(req.items.value).value, Pending, None, None);
        resp == Accepted(freshId, StatusName(Pending), "Order is being processed") &&
        orders == old(orders)[freshId := order] && published == old(published) + [order]
    {
      if !HasRequiredFields(req) {
        return Rejected(400, "Missing required fields");
      }
      var total := Total(req.items.value);
      if total.Err? {
        return Rejected(500, "'" + total.error + "'");
      }
      var order := Order(freshId, req.customerId.value, req.items.value, total.value, Pending, None, None);
      orders := orders[freshId := order];
      published := published + [order];
      resp := Accepted(freshId, StatusName(Pending), "Order is being processed");
    }

    /** `get_order_status`: the stored record, or `None` (404) for an
        unknown id. */
    method GetOrder(orderId: string) returns (r: Option<Order>)
      requires Valid()
      ensures orderId in orders <==> r.Some?
      ensures r.Some? ==> r.value == orders[orderId] && r.value.orderId == orderId
    {
      if orderId in orders {
        r := Some(orders[orderId]);
      } else {
        r := None;
      }
    }

    /** `handle_inventory_events`: a known order's record becomes its
        `InventoryOutcome`; an unknown order changes nothing. */
    method HandleInventoryEvents(ev: Event)
      requires Valid()
      modifies this`orders
      ensures Valid()
      ensures orders == if ev.data.orderId in old(orders)
                        then old(orders)[ev.data.orderId := InventoryOutcome(old(orders)[ev.data.orderId], ev)]
                        else old(orders)
    {
      var id := ev.data.orderId;
      if id !in orders {
        return;
      }
      if ev.eventType == "inventory.reserved" {
        orders := orders[id := orders[id].(status := InventoryReserved)];
      } else if ev.eventType == "inventory.insufficient" {
        orders := orders[id := orders[id].(status := Failed, failureReason := Some("Insufficient inventory"))];
      }
    }

    /** `handle_payment_events`: a known order's record becomes its
        `PaymentOutcome`; an unknown order changes nothing. */
    method HandlePaymentEvents(ev: Event)
      requires Valid()
      modifies this`orders
      ensures Valid()
      ensures orders == if ev.data.orderId in old(orders)
                        then old(orders)[ev.data.orderId := PaymentOutcome(old(orders)[ev.data.orderId], ev)]
                        else old(orders)
    {
      var id := ev.data.orderId;
      if id !in orders {
        return;
      }
      if ev.eventType == "payment.processed" {
        orders := orders[id := orders[id].(status := Completed, paymentId := Some(ev.data.paymentId))];
      } else if ev.eventType == "payment.failed" {
        orders := orders[id := orders[id].(status := PaymentFailed,
                                           failureReason := Some(ev.data.reason.GetOr("Unknown")))];
      }
    }

    /** The listener's callback: hand the event to the handler `Route`
        picks, so a known order's record becomes its `Deliver` outcome; the
        set of orders and every other order stay as they were. */
    method OnEvent(ev: Event)
      requires Valid()
      modifies this`orders
      ensures Valid() && orders.Keys == old(orders).Keys
      ensures forall id | id in orders && id != ev.data.orderId :: orders[id] == old(orders)[id]
      ensures ev.data.orderId in old(orders) ==>
        orders[ev.data.orderId] == Deliver(old(orders)[ev.data.orderId], ev)
      ensures ev.data.orderId !in old(orders) ==> orders == old(orders)
    {
      if Route(ev.eventType) == InventoryHandler {
        HandleInventoryEvents(ev);
      } else {
        HandlePaymentEvents(ev);
      }
    }
  }
}
