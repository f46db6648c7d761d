/** The Orders page: the order store, the "Mark as Completed" transition,
    the search-and-tab filter, the item and money totals, and the two
    badge classifiers. Money is in integer cents. */
module Orders {

  import opened Wrappers
  import opened Text
  import opened Collections
  import opened Ui

  datatype LineItem = LineItem(name: string, quantity: int, price: int)

  /** An order. `endTime` and `totalTime` are null until the order is
      completed; `totalTime` and `expectedTime` are minutes. */
  datatype Order = Order(
    id: string,
    table: string,
    server: string,
    items: seq<LineItem>,
    status: string,
    startTime: string,
    endTime: Option<string>,
    totalTime: Option<int>,
    expectedTime: int,
    date: string,
    total: int,
    discount: int,
    onTime: bool)

  function OrderId(o: Order): string
  {
    o.id
  }

  /** The simulated service time: `Math.floor(Math.random() * 10) + 20`,
      with the random draw passed in as `r`. */
  function SimulatedServiceTime(r: real): (t: int)
    requires 0.0 <= r < 1.0
    ensures 20 <= t <= 29
    ensures (t - 20) as real <= 10.0 * r < (t - 19) as real
  {
    (10.0 * r).Floor + 20
  }

  /** `totalTime ? totalTime <= expectedTime : true`, with JavaScript
      truthiness: a null or zero time counts as on time. */
  function OnTimeRule(totalTime: Option<int>, expectedTime: int): bool
  {
    match totalTime
    case Some(t) => if t != 0 then t <= expectedTime else true
    case None => true
  }

  /** The fields the status transition leaves alone are unchanged. */
  ghost predicate SameExceptTiming(a: Order, b: Order)
  {
    a.id == b.id && a.table == b.table && a.server == b.server && a.items == b.items
    && a.startTime == b.startTime && a.expectedTime == b.expectedTime && a.date == b.date
    && a.total == b.total && a.discount == b.discount
  }

  /** The per-order body of the update handler. `clock` is the formatted
      wall-clock time; an empty one is falsy and yields no service time,
      exactly as a falsy `endTime` would. */
  function Transition(o: Order, newStatus: string, clock: string, r: real): (o': Order)
    requires 0.0 <= r < 1.0
    ensures SameExceptTiming(o', o)
    ensures o'.status == newStatus
    ensures newStatus == "Completed" ==> o'.endTime == Some(clock)
    ensures newStatus == "Completed" && clock != "" ==>
      && o'.totalTime == Some(SimulatedServiceTime(r))
      && 20 <= o'.totalTime.value <= 29
      && (o'.onTime <==> o'.totalTime.value <= o.expectedTime)
    ensures newStatus != "Completed" || clock == "" ==> o'.totalTime == None && o'.onTime
    ensures newStatus != "Completed" ==> o'.endTime == None
  {
    var endTime := if newStatus == "Completed" then Some(clock) else None;
    var totalTime := if endTime.Some? && endTime.value != "" then Some(SimulatedServiceTime(r)) else None;
    o.(status := newStatus, endTime := endTime, totalTime := totalTime,
       onTime := OnTimeRule(totalTime, o.expectedTime))
  }

  /** `handleUpdateStatus(id, newStatus)`: every order whose id matches goes
      through the transition, every other order is untouched, and a success
      toast is raised whether or not an order matched. */
  function UpdateStatus(orders: seq<Order>, id: string, newStatus: string, clock: string, r: real): (s: Step<seq<Order>>)
    requires 0.0 <= r < 1.0
    ensures |s.next| == |orders|
    ensures forall i :: 0 <= i < |orders| && orders[i].id != id ==> s.next[i] == orders[i]
    ensures forall i :: 0 <= i < |orders| && orders[i].id == id ==> s.next[i] == Transition(orders[i], newStatus, clock, r)
    ensures KeyAbsent(orders, OrderId, id) ==> s.next == orders
    ensures s.toast == Success("Order #" + id + " updated to \"" + newStatus + "\"")
  {
    var next := UpdateById(orders, OrderId, id, o => Transition(o, newStatus, clock, r));
    Step(next, Success("Order #" + id + " updated to \"" + newStatus + "\""))
  }

  /** The update never changes an order's id, so unique ids stay unique and
      at most one order goes through the transition. */
  lemma UpdateStatusKeepsIds(orders: seq<Order>, id: string, newStatus: string, clock: string, r: real)
    requires 0.0 <= r < 1.0
    ensures var next := UpdateStatus(orders, id, newStatus, clock, r).next;
      forall i :: 0 <= i < |orders| ==> next[i].id == orders[i].id
    ensures UniqueIds(orders, OrderId) ==> UniqueIds(UpdateStatus(orders, id, newStatus, clock, r).next, OrderId)
  {
    var next := UpdateStatus(orders, id, newStatus, clock, r).next;
    assert forall i :: 0 <= i < |orders| ==> OrderId(next[i]) == OrderId(orders[i]);
  }

  /** Completing an order with a real clock puts it on the Completed tab
      with a service time in [20, 29] and a punctuality flag that agrees
      with the expected time. */
  lemma CompletedOrderOnCompletedTab(orders: seq<Order>, id: string, clock: string, r: real, i: int)
    requires 0.0 <= r < 1.0
    requires clock != ""
    requires 0 <= i < |orders| && orders[i].id == id
    ensures var o := UpdateStatus(orders, id, "Completed", clock, r).next[i];
      && o in Visible(UpdateStatus(orders, id, "Completed", clock, r).next, "", "completed")
      && o.totalTime.Some? && 20 <= o.totalTime.value <= 29
      && (o.onTime <==> o.totalTime.value <= orders[i].expectedTime)
  {
    var next := UpdateStatus(orders, id, "Completed", clock, r).next;
    assert next[i] in next;
  }

  /** The search: `id` and `table` case-sensitively, `server` ignoring case. */
  predicate MatchesSearch(o: Order, term: string)
  {
    Includes(o.id, term) || Includes(o.table, term) || IncludesIgnoringCase(o.server, term)
  }

  /** The tab predicate; `"all"` and any unknown tab keep every order. */
  predicate OnTab(o: Order, tab: string)
  {
    if tab == "all" then true
    else if tab == "inProgress" then o.status == "In Progress"
    else if tab == "completed" then o.status == "Completed"
    else true
  }

  /** `filteredOrders`: the orders matching the search and the active tab,
      in store order. */
  function Visible(orders: seq<Order>, term: string, tab: string): (r: seq<Order>)
    ensures Subsequence(r, orders)
    ensures forall i :: 0 <= i < |r| ==> MatchesSearch(r[i], term)
    ensures tab == "inProgress" ==> forall i :: 0 <= i < |r| ==> r[i].status == "In Progress"
    ensures tab == "completed" ==> forall i :: 0 <= i < |r| ==> r[i].status == "Completed"
    ensures forall o :: o in r <==> o in orders && MatchesSearch(o, term) && OnTab(o, tab)
    ensures forall o :: multiset(r)[o] == if MatchesSearch(o, term) && OnTab(o, tab) then multiset(orders)[o] else 0
    ensures term == "" && tab != "inProgress" && tab != "completed" ==> r == orders
  {
    Filter(orders, o => MatchesSearch(o, term) && OnTab(o, tab))
  }

  /** `getTotalItems`: `items.reduce((n, item) => n + item.quantity, 0)`. */
  function TotalItems(items: seq<LineItem>): (n: int)
    ensures (forall i :: 0 <= i < |items| ==> items[i].quantity > 0) ==> n >= |items|
  {
    if |items| == 0 then 0 else TotalItems(items[..|items| - 1]) + items[|items| - 1].quantity
  }

  /** The item count of a concatenation is the sum of the item counts. */
  lemma {:induction false} TotalItemsAppend(a: seq<LineItem>, b: seq<LineItem>)
    ensures TotalItems(a + b) == TotalItems(a) + TotalItems(b)
    decreases |b|
  {
    if |b| == 0 {
      assert a + b == a;
    } else {
      var b' := b[..|b| - 1];
      assert (a + b)[..|a + b| - 1] == a + b';
      TotalItemsAppend(a, b');
    }
  }

  /** The amount an order's items add up to, `Σ quantity × price` in cents. */
  function Subtotal(items: seq<LineItem>): (c: int)
    ensures (forall i :: 0 <= i < |items| ==> items[i].quantity >= 0 && items[i].price >= 0) ==> c >= 0
  {
    if |items| == 0 then 0 else items[0].quantity * items[0].price + Subtotal(items[1..])
  }

  /** The amount of a concatenation of item lists is the sum of the amounts. */
  lemma {:induction false} SubtotalAppend(a: seq<LineItem>, b: seq<LineItem>)
    ensures Subtotal(a + b) == Subtotal(a) + Subtotal(b)
  {
    if |a| == 0 {
      assert a + b == b;
    } else {
      assert (a + b)[1..] == a[1..] + b;
      SubtotalAppend(a[1..], b);
    }
  }

  /** The detail dialog's "Final" line: shown only for a positive discount,
      and then it is the total less the discount. */
  function FinalAmount(o: Order): (f: Option<int>)
    ensures f.Some? <==> o.discount > 0
    ensures f.Some? ==> f.value + o.discount == o.total
  {
    if o.discount > 0 then Some(o.total - o.discount) else None
  }

  const StatusTable: map<string, string> :=
    map["Completed" := Green, "In Progress" := Yellow, "Pending" := Blue, "Cancelled" := Red]

  /** `getStatusClass`: the four known statuses get their colours, any other
      string falls to gray. */
  function StatusClass(status: string): (c: string)
    ensures c == Lookup(StatusTable, status, Gray)
    ensures c == Gray <==> status !in StatusTable
  {
    match status
    case "Completed" => Green
    case "In Progress" => Yellow
    case "Pending" => Blue
    case "Cancelled" => Red
    case _ => Gray
  }

  /** `getTimeClass`: only a completed order is coloured by punctuality. */
  function TimeClass(onTime: bool, status: string): (c: string)
    ensures status != "Completed" ==> c == "text-gray-500"
    ensures status == "Completed" ==> (c == "text-green-600" <==> onTime)
    ensures status == "Completed" ==> (c == "text-red-600" <==> !onTime)
  {
    if status != "Completed" then "text-gray-500"
    else if onTime then "text-green-600" else "text-red-600"
  }

  /** `ordersInitialData`, prices and totals in cents. */
  const SeedOrders: seq<Order> := [
    Order("78943", "12", "Sarah Johnson",
      [LineItem("Grilled Salmon", 2, 2499), LineItem("Caesar Salad", 1, 1299), LineItem("Fresh Lemonade", 2, 499)],
      "Completed", "12:15 PM", Some("12:42 PM"), Some(27), 30, "2025-04-23", 7295, 0, true),
    Order("78942", "8", "Emily Davis",
      [LineItem("Chicken Alfredo", 1, 1899), LineItem("Beef Burger", 1, 1699), LineItem("Fresh Lemonade", 2, 499)],
      "In Progress", "12:22 PM", None, None, 25, "2025-04-23", 4596, 0, true),
    Order("78941", "15", "David Wilson",
      [LineItem("Beef Burger", 2, 1699), LineItem("Vegetable Curry", 1, 1799),
       LineItem("Caesar Salad", 1, 1299), LineItem("Chocolate Cake", 2, 999)],
      "Completed", "11:48 AM", Some("12:21 PM"), Some(33), 30, "2025-04-23", 8494, 500, false),
    Order("78940", "3", "Sarah Johnson",
      [LineItem("Caesar Salad", 2, 1299), LineItem("Fresh Lemonade", 2, 499)],
      "Completed", "11:30 AM", Some("11:45 AM"), Some(15), 15, "2025-04-23", 3596, 0, true),
    Order("78939", "7", "Emily Davis",
      [LineItem("Vegetable Curry", 1, 1799), LineItem("Chocolate Cake", 1, 999), LineItem("Fresh Lemonade", 1, 499)],
      "Completed", "11:15 AM", Some("11:42 AM"), Some(27), 22, "2025-04-23", 3297, 300, false)
  ]

  /** The seed orders have pairwise distinct ids; with
      `UpdateStatusKeepsIds` (the page has no add), ids are unique in every
      store the page can reach. */
  lemma SeedOrderIdsUnique()
    ensures UniqueIds(SeedOrders, OrderId)
  {
  }

  /** Every seed total is the sum of its line items, every completed seed
      order has a service time and a punctuality flag that agrees with it,
      and every other seed order is flagged on time, as the transition
      would leave it. */
  lemma SeedOrdersConsistent()
    ensures forall i :: 0 <= i < |SeedOrders| ==> SeedOrders[i].total == Subtotal(SeedOrders[i].items)
    ensures forall i :: 0 <= i < |SeedOrders| ==>
      SeedOrders[i].onTime == OnTimeRule(SeedOrders[i].totalTime, SeedOrders[i].expectedTime)
    ensures forall i :: 0 <= i < |SeedOrders| && SeedOrders[i].status == "Completed" ==>
      SeedOrders[i].endTime.Some? && SeedOrders[i].totalTime.Some?
  {
  }

  /** The detail view of order 78941 (84.94 with a 5.00 discount) shows a
      final amount of 79.94; order 78943 has no discount and no final line. */
  lemma SeedFinalAmounts()
    ensures FinalAmount(SeedOrders[2]) == Some(7994)
    ensures FinalAmount(SeedOrders[0]) == None
  {
  }
}
