/** The customer dimension `dim_customers`.
 *
 *  The `customer_orders` step LEFT-joins every order to its item rows and
 *  groups the result by the order's customer: per customer it counts the
 *  distinct order ids and takes SUM, AVG of the item prices and MIN, MAX of
 *  the purchase timestamps. The final step LEFT-joins that per-customer row
 *  onto every row of the customer master, COALESCEs the order count and the
 *  price sum to 0, and labels the customer with a CASE on the (uncoalesced)
 *  order count.
 *
 *  The per-customer step is modelled with all five aggregate columns; the
 *  shorter variants of the model compute a subset of the same columns with
 *  the same definitions. The final row carries `customer_unique_id`, which
 *  the shorter variants leave out of their select list. */
module DimCustomers {
  import opened Sql
  import opened Warehouse

  // ---------------------------------------------------------------------------
  // orders LEFT JOIN order_items

  /** One row of the orders-to-items join, cut down to the columns the
   *  aggregates read; `price` is NULL for the padding row of an order that
   *  has no items. */
  datatype OrderLine = OrderLine(customerId: Id, orderId: Id, purchaseTs: Option<Timestamp>, price: Option<Money>)

  function Line(o: Order, oi: Option<OrderItem>): OrderLine {
    OrderLine(o.customerId, o.orderId, o.purchaseTs, if oi.Some? then oi.value.price else None)
  }

  /** The line carries the order's customer, id and timestamp. */
  predicate FromOrder(l: OrderLine, o: Order) {
    l.customerId == o.customerId && l.orderId == o.orderId && l.purchaseTs == o.purchaseTs
  }

  /** The lines of one order, one per row of its (null-extended) item side. */
  function OrderLines(o: Order, ois: seq<Option<OrderItem>>): (r: seq<OrderLine>)
    ensures |r| == |ois|
    ensures forall l | l in r :: FromOrder(l, o)
  {
    if ois == [] then [] else [Line(o, ois[0])] + OrderLines(o, ois[1..])
  }

  /** `orders o LEFT JOIN order_items oi ON o.order_id = oi.order_id`: every
   *  line comes from an order, and every order has at least one line. */
  function JoinOrderItems(orders: seq<Order>, items: seq<OrderItem>): (r: seq<OrderLine>)
    ensures |r| >= |orders|
    ensures forall l | l in r :: exists o | o in orders :: FromOrder(l, o)
    ensures forall o | o in orders :: exists l | l in r :: FromOrder(l, o)
  {
    if orders == [] then []
    else
      var head := OrderLines(orders[0], NullExtended(ItemsOfOrder(items, orders[0].orderId)));
      var rest := JoinOrderItems(orders[1..], items);
      assert head[0] in head && FromOrder(head[0], orders[0]);
      assert forall o | o in orders[1..] :: o in orders;
      assert forall o | o in orders :: o == orders[0] || o in orders[1..];
      head + rest
  }

  // ---------------------------------------------------------------------------
  // GROUP BY o.customer_id

  /** The lines of group `c`. */
  function GroupOf(lines: seq<OrderLine>, c: Id): (g: seq<OrderLine>)
    ensures forall l :: l in g <==> l in lines && l.customerId == c
  {
    if lines == [] then []
    else (if lines[0].customerId == c then [lines[0]] else []) + GroupOf(lines[1..], c)
  }

  /** The distinct grouping keys. */
  function GroupKeys(lines: seq<OrderLine>): (keys: seq<Id>)
    ensures forall c :: c in keys <==> exists k | 0 <= k < |lines| :: lines[k].customerId == c
    ensures forall i, j | 0 <= i < j < |keys| :: keys[i] != keys[j]
  {
    if lines == [] then []
    else
      var rest := GroupKeys(lines[1..]);
      assert forall k | 1 <= k < |lines| :: lines[k] == lines[1..][k - 1];
      if lines[0].customerId in rest then rest else [lines[0].customerId] + rest
  }

  /** The `price` column of a group. */
  function Prices(g: seq<OrderLine>): (ps: seq<Option<Money>>)
    ensures |ps| == |g|
  {
    if g == [] then [] else [g[0].price] + Prices(g[1..])
  }

  /** The `order_purchase_timestamp` column of a group. */
  function Timestamps(g: seq<OrderLine>): seq<Option<Timestamp>> {
    seq(|g|, k requires 0 <= k < |g| => g[k].purchaseTs)
  }

  /** The distinct order ids of a group. */
  function OrderIdsOf(g: seq<OrderLine>): set<Id> {
    set l | l in g :: l.orderId
  }

  lemma OrderIdsEmpty(g: seq<OrderLine>)
    ensures OrderIdsOf(g) == {} <==> g == []
  {
    if g != [] {
      assert g[0].orderId in OrderIdsOf(g);
    }
  }

  /** One row of `customer_orders`. */
  datatype CustomerOrders = CustomerOrders(
    customerId: Id,
    totalOrders: nat,
    totalRevenue: Option<Money>,
    avgOrderValue: Option<real>,
    firstOrderDate: Option<Timestamp>,
    lastOrderDate: Option<Timestamp>)

  /** The aggregates of group `c`: count(distinct order_id), sum(price),
   *  avg(price), min and max of the purchase timestamp. */
  function Aggregate(c: Id, g: seq<OrderLine>): (r: CustomerOrders)
    ensures r.customerId == c
    ensures r.totalOrders == 0 <==> g == []
    ensures Coalesce(r.totalRevenue, 0) == Total(Values(Prices(g)))
    ensures r.totalRevenue.None? <==> r.avgOrderValue.None?
    ensures r.firstOrderDate.None? <==> r.lastOrderDate.None?
    ensures r.firstOrderDate.Some? ==> r.firstOrderDate.value <= r.lastOrderDate.value
  {
    OrderIdsEmpty(g);
    MinAtMostMax(Timestamps(g));
    CustomerOrders(c, |OrderIdsOf(g)|, Sum(Prices(g)), Avg(Prices(g)), Min(Timestamps(g)), Max(Timestamps(g)))
  }

  function Groups(keys: seq<Id>, lines: seq<OrderLine>): seq<CustomerOrders> {
    if keys == [] then [] else [Aggregate(keys[0], GroupOf(lines, keys[0]))] + Groups(keys[1..], lines)
  }

  /** `customer_orders`: one aggregate row per customer that has orders. */
  function CustomerOrdersCte(orders: seq<Order>, items: seq<OrderItem>): (cte: seq<CustomerOrders>)
    ensures OneRowPerCustomer(cte) && OnlyCustomersWithOrders(cte)
  {
    var lines := JoinOrderItems(orders, items);
    GroupRows(lines);
    Groups(GroupKeys(lines), lines)
  }

  /** No two aggregate rows share a customer id. */
  predicate OneRowPerCustomer(cte: seq<CustomerOrders>) {
    forall i, j | 0 <= i < j < |cte| :: cte[i].customerId != cte[j].customerId
  }

  /** Every aggregate row counts at least one order. */
  predicate OnlyCustomersWithOrders(cte: seq<CustomerOrders>) {
    forall co | co in cte :: co.totalOrders > 0
  }

  /** The rows of `Groups` are the aggregates of their keys, in key order. */
  lemma {:induction false} GroupsRows(keys: seq<Id>, lines: seq<OrderLine>)
    ensures |Groups(keys, lines)| == |keys|
    ensures forall i | 0 <= i < |keys| :: Groups(keys, lines)[i] == Aggregate(keys[i], GroupOf(lines, keys[i]))
  {
    GroupsLength(keys, lines);
    forall i | 0 <= i < |keys|
      ensures Groups(keys, lines)[i] == Aggregate(keys[i], GroupOf(lines, keys[i]))
    {
      GroupsAt(keys, lines, i);
    }
  }

  lemma {:induction false} GroupsLength(keys: seq<Id>, lines: seq<OrderLine>)
    ensures |Groups(keys, lines)| == |keys|
  {
    if keys != [] {
      GroupsLength(keys[1..], lines);
    }
  }

  lemma {:induction false} GroupsAt(keys: seq<Id>, lines: seq<OrderLine>, i: nat)
    requires i < |keys|
    ensures i < |Groups(keys, lines)|
    ensures Groups(keys, lines)[i] == Aggregate(keys[i], GroupOf(lines, keys[i]))
  {
    GroupsLength(keys, lines);
    var g := Groups(keys, lines);
    var rest := Groups(keys[1..], lines);
    assert g == [Aggregate(keys[0], GroupOf(lines, keys[0]))] + rest;
    if i > 0 {
      GroupsAt(keys[1..], lines, i - 1);
      assert g[i] == rest[i - 1];
      assert keys[1..][i - 1] == keys[i];
    }
  }

  /** Grouping by the distinct keys gives one row per customer, and only for
   *  customers that have lines. */
  lemma GroupRows(lines: seq<OrderLine>)
    ensures OneRowPerCustomer(Groups(GroupKeys(lines), lines))
    ensures OnlyCustomersWithOrders(Groups(GroupKeys(lines), lines))
  {
    var keys := GroupKeys(lines);
    var cte := Groups(keys, lines);
    GroupsRows(keys, lines);
    forall co | co in cte
      ensures co.totalOrders > 0
    {
      var i :| 0 <= i < |cte| && cte[i] == co;
      GroupKeyHasLines(lines, keys[i]);
    }
  }

  /** `customer_orders WHERE customer_id = c`. */
  function CteWithId(cte: seq<CustomerOrders>, c: Id): (r: seq<CustomerOrders>)
    ensures forall co :: co in r <==> co in cte && co.customerId == c
  {
    if cte == [] then []
    else (if cte[0].customerId == c then [cte[0]] else []) + CteWithId(cte[1..], c)
  }

  // ---------------------------------------------------------------------------
  // Reference definitions, straight from the source relations

  /** The distinct ids of the orders placed under customer id `c`. */
  function OrderIdsFor(orders: seq<Order>, c: Id): set<Id> {
    set o | o in orders && o.customerId == c :: o.orderId
  }

  /** How many distinct orders customer `c` placed. */
  function OrderCount(orders: seq<Order>, c: Id): nat {
    |OrderIdsFor(orders, c)|
  }

  /** The non-NULL prices of some item rows, in order. */
  function ItemPriceValues(its: seq<OrderItem>): seq<Money> {
    if its == [] then []
    else (if its[0].price.Some? then [its[0].price.value] else []) + ItemPriceValues(its[1..])
  }

  /** The non-NULL item prices of every order row of customer `c` (an order
   *  row listed twice contributes its items twice, as the join does). */
  function CustomerPrices(orders: seq<Order>, items: seq<OrderItem>, c: Id): seq<Money> {
    if orders == [] then []
    else
      (if orders[0].customerId == c then ItemPriceValues(ItemsOfOrder(items, orders[0].orderId)) else [])
        + CustomerPrices(orders[1..], items, c)
  }

  // ---------------------------------------------------------------------------
  // What customer_orders computes

  lemma {:induction false} GroupOfAppend(a: seq<OrderLine>, b: seq<OrderLine>, c: Id)
    ensures GroupOf(a + b, c) == GroupOf(a, c) + GroupOf(b, c)
  {
    if a == [] {
      assert a + b == b;
    } else {
      assert (a + b)[0] == a[0];
      assert (a + b)[1..] == a[1..] + b;
      GroupOfAppend(a[1..], b, c);
    }
  }

  lemma {:induction false} PricesAppend(a: seq<OrderLine>, b: seq<OrderLine>)
    ensures Prices(a + b) == Prices(a) + Prices(b)
  {
    if a == [] {
      assert a + b == b;
    } else {
      assert (a + b)[0] == a[0];
      assert (a + b)[1..] == a[1..] + b;
      PricesAppend(a[1..], b);
    }
  }

  /** A group of one customer's lines is all or nothing. */
  lemma {:induction false} GroupOfUniform(s: seq<OrderLine>, k: Id, c: Id)
    requires forall l | l in s :: l.customerId == k
    ensures GroupOf(s, c) == if k == c then s else []
  {
    if s != [] {
      assert s[0] in s && forall l | l in s[1..] :: l in s;
      GroupOfUniform(s[1..], k, c);
      assert GroupOf(s, c) == (if k == c then [s[0]] else []) + GroupOf(s[1..], c);
      if k == c {
        assert s == [s[0]] + s[1..];
      }
    }
  }

  lemma {:induction false} SomeLinePrices(o: Order, its: seq<OrderItem>)
    ensures Values(Prices(OrderLines(o, Somes(its)))) == ItemPriceValues(its)
  {
    if its != [] {
      var ois := Somes(its);
      assert ois[1..] == Somes(its[1..]);
      SomeLinePrices(o, its[1..]);
      var ls := OrderLines(o, ois);
      assert ls[1..] == OrderLines(o, ois[1..]);
      var ps := Prices(ls);
      assert ps[0] == its[0].price && ps[1..] == Prices(ls[1..]);
    }
  }

  /** The price lines of one order are the non-NULL prices of its items; an
   *  order without items contributes one NULL price and so nothing. */
  lemma OrderLinePrices(o: Order, its: seq<OrderItem>)
    ensures Values(Prices(OrderLines(o, NullExtended(its)))) == ItemPriceValues(its)
  {
    if its == [] {
      assert Prices(OrderLines(o, [None])) == [None];
    } else {
      SomeLinePrices(o, its);
    }
  }

  /** The non-NULL prices SUM and AVG see in group `c` are exactly the item
   *  prices of `c`'s orders. */
  lemma {:induction false} GroupPrices(orders: seq<Order>, items: seq<OrderItem>, c: Id)
    ensures Values(Prices(GroupOf(JoinOrderItems(orders, items), c))) == CustomerPrices(orders, items, c)
  {
    if orders != [] {
      var o := orders[0];
      var head := OrderLines(o, NullExtended(ItemsOfOrder(items, o.orderId)));
      var rest := JoinOrderItems(orders[1..], items);
      GroupOfAppend(head, rest, c);
      GroupOfUniform(head, o.customerId, c);
      PricesAppend(GroupOf(head, c), GroupOf(rest, c));
      ValuesAppend(Prices(GroupOf(head, c)), Prices(GroupOf(rest, c)));
      OrderLinePrices(o, ItemsOfOrder(items, o.orderId));
      GroupPrices(orders[1..], items, c);
    }
  }

  /** count(distinct order_id) over group `c` counts `c`'s distinct orders,
   *  not its item lines. */
  lemma GroupOrderIds(orders: seq<Order>, items: seq<OrderItem>, c: Id)
    ensures OrderIdsOf(GroupOf(JoinOrderItems(orders, items), c)) == OrderIdsFor(orders, c)
  {
  }

  lemma {:induction false} GroupsLookup(keys: seq<Id>, lines: seq<OrderLine>, c: Id)
    requires forall i, j | 0 <= i < j < |keys| :: keys[i] != keys[j]
    ensures CteWithId(Groups(keys, lines), c) == if c in keys then [Aggregate(c, GroupOf(lines, c))] else []
  {
    if keys != [] {
      var rest := keys[1..];
      assert forall i, j | 0 <= i < j < |rest| :: rest[i] != rest[j] by {
        forall i, j | 0 <= i < j < |rest| ensures rest[i] != rest[j] {
          assert rest[i] == keys[i + 1] && rest[j] == keys[j + 1];
        }
      }
      GroupsLookup(rest, lines, c);
      assert c in keys <==> c == keys[0] || c in rest;
      if c == keys[0] {
        forall j | 0 <= j < |rest| ensures rest[j] != c {
          assert rest[j] == keys[j + 1];
        }
      }
    }
  }

  /** A customer id is a grouping key exactly when its group has lines. */
  lemma GroupKeyHasLines(lines: seq<OrderLine>, c: Id)
    ensures c in GroupKeys(lines) <==> GroupOf(lines, c) != []
  {
    var g := GroupOf(lines, c);
    if c in GroupKeys(lines) {
      var k :| 0 <= k < |lines| && lines[k].customerId == c;
      assert lines[k] in g;
    }
    if g != [] {
      assert g[0] in g;
    }
  }

  /** A customer has a `customer_orders` row exactly when they placed an
   *  order, and then exactly one: the aggregate of their group. */
  lemma CustomerOrdersLookup(orders: seq<Order>, items: seq<OrderItem>, c: Id)
    ensures var lines := JoinOrderItems(orders, items);
            CteWithId(CustomerOrdersCte(orders, items), c)
              == if OrderCount(orders, c) > 0 then [Aggregate(c, GroupOf(lines, c))] else []
  {
    var lines := JoinOrderItems(orders, items);
    var g := GroupOf(lines, c);
    GroupsLookup(GroupKeys(lines), lines, c);
    GroupOrderIds(orders, items, c);
    GroupKeyHasLines(lines, c);
    OrderIdsEmpty(g);
  }

  /** The order count and revenue of a customer who placed orders. */
  lemma CustomerOrderTotals(orders: seq<Order>, items: seq<OrderItem>, c: Id)
    requires OrderCount(orders, c) > 0
    ensures var m := CteWithId(CustomerOrdersCte(orders, items), c);
            && |m| == 1
            && m[0].totalOrders == OrderCount(orders, c)
            && (m[0].totalRevenue.None? <==> CustomerPrices(orders, items, c) == [])
            && Coalesce(m[0].totalRevenue, 0) == Total(CustomerPrices(orders, items, c))
  {
    CustomerOrdersLookup(orders, items, c);
    GroupOrderIds(orders, items, c);
    GroupPrices(orders, items, c);
  }

  /** `avg_order_value` is the mean of the customer's non-NULL item prices,
   *  and NULL exactly when there is no such price. */
  lemma CustomerAvgOrderValue(orders: seq<Order>, items: seq<OrderItem>, c: Id)
    ensures var ps := CustomerPrices(orders, items, c);
            forall co | co in CteWithId(CustomerOrdersCte(orders, items), c) ::
              co.avgOrderValue == if ps == [] then None else Some(Total(ps) as real / |ps| as real)
  {
    var lines := JoinOrderItems(orders, items);
    var g := GroupOf(lines, c);
    var m := CteWithId(CustomerOrdersCte(orders, items), c);
    CustomerOrdersLookup(orders, items, c);
    GroupPrices(orders, items, c);
    assert m == [] || m == [Aggregate(c, g)];
  }

  /** The MIN and MAX of the purchase timestamps over the lines of customer
   *  `c`: both NULL or both set, the first never after the last, each the
   *  timestamp of one of `c`'s orders, and every such timestamp between them. */
  ghost predicate OrderDateRange(first: Option<Timestamp>, last: Option<Timestamp>, orders: seq<Order>, c: Id) {
    && (first.Some? <==> last.Some?)
    && (first.Some? ==> first.value <= last.value)
    && (forall o | o in orders && o.customerId == c && o.purchaseTs.Some? ::
          first.Some? && first.value <= o.purchaseTs.value <= last.value)
    && (first.Some? ==> exists o | o in orders && o.customerId == c :: o.purchaseTs == first)
    && (last.Some? ==> exists o | o in orders && o.customerId == c :: o.purchaseTs == last)
  }

  lemma LinesDates(g: seq<OrderLine>, orders: seq<Order>, c: Id)
    requires forall l | l in g :: l.customerId == c && exists o | o in orders :: FromOrder(l, o)
    requires forall o | o in orders && o.customerId == c :: exists l | l in g :: FromOrder(l, o)
    ensures OrderDateRange(Min(Timestamps(g)), Max(Timestamps(g)), orders, c)
  {
    var ts := Timestamps(g);
    var first, last := Min(ts), Max(ts);
    MinAtMostMax(ts);
    forall o | o in orders && o.customerId == c && o.purchaseTs.Some?
      ensures first.Some? && first.value <= o.purchaseTs.value <= last.value
    {
      var l :| l in g && FromOrder(l, o);
      var k :| 0 <= k < |g| && g[k] == l;
      assert ts[k] == o.purchaseTs;
    }
    if first.Some? {
      var k :| 0 <= k < |ts| && ts[k] == first;
      assert g[k] in g;
      var o :| o in orders && FromOrder(g[k], o);
    }
    if last.Some? {
      var k :| 0 <= k < |ts| && ts[k] == last;
      assert g[k] in g;
      var o :| o in orders && FromOrder(g[k], o);
    }
  }

  lemma GroupDates(orders: seq<Order>, items: seq<OrderItem>, c: Id)
    ensures var ts := Timestamps(GroupOf(JoinOrderItems(orders, items), c));
            OrderDateRange(Min(ts), Max(ts), orders, c)
  {
    var lines := JoinOrderItems(orders, items);
    var g := GroupOf(lines, c);
    forall o | o in orders && o.customerId == c ensures exists l | l in g :: FromOrder(l, o) {
      var l :| l in lines && FromOrder(l, o);
      assert l in g;
    }
    LinesDates(g, orders, c);
  }

  /** `first_order_date` and `last_order_date` of a customer's
   *  `customer_orders` row span exactly the customer's purchase timestamps. */
  lemma CustomerOrderDates(orders: seq<Order>, items: seq<OrderItem>, c: Id)
    ensures forall co | co in CteWithId(CustomerOrdersCte(orders, items), c) ::
              OrderDateRange(co.firstOrderDate, co.lastOrderDate, orders, c)
  {
    var g := GroupOf(JoinOrderItems(orders, items), c);
    var m := CteWithId(CustomerOrdersCte(orders, items), c);
    CustomerOrdersLookup(orders, items, c);
    GroupDates(orders, items, c);
    assert m == [] || m == [Aggregate(c, g)];
  }

  // ---------------------------------------------------------------------------
  // The final select: customers c LEFT JOIN customer_orders co

  datatype CustomerType = Returning | OneTime | NoOrders {
    /** The label the CASE expression writes. */
    function Label(): (s: string)
      ensures s in {"Returning", "One-time", "No Orders"}
    {
      match this
      case Returning => "Returning"
      case OneTime => "One-time"
      case NoOrders => "No Orders"
    }
  }

  /** The CASE over `co.total_orders`, which is NULL for a customer without
   *  orders; a comparison with NULL is not true, so NULL falls to the ELSE. */
  function Segment(totalOrders: Option<nat>): (t: CustomerType)
    ensures t == Returning <==> totalOrders.Some? && totalOrders.value > 1
    ensures t == OneTime <==> totalOrders == Some(1)
    ensures t == NoOrders <==> totalOrders.None? || totalOrders == Some(0)
  {
    if totalOrders.Some? && totalOrders.value > 1 then Returning
    else if totalOrders.Some? && totalOrders.value == 1 then OneTime
    else NoOrders
  }

  /** Evaluating the CASE on the uncoalesced count, as the query does, gives
   *  the same label as evaluating it on the count after COALESCE to 0. */
  lemma SegmentAfterCoalesce(totalOrders: Option<nat>)
    ensures Segment(totalOrders) == Segment(Some(Coalesce(totalOrders, 0)))
  {
  }

  /** Distinct segments carry distinct labels. */
  lemma LabelsDistinct(s: CustomerType, t: CustomerType)
    ensures s.Label() == t.Label() <==> s == t
  {
  }

  /** One row of `dim_customers`. */
  datatype DimCustomer = DimCustomer(
    customerId: Id,
    customerUniqueId: Id,
    city: string,
    state: string,
    totalOrders: nat,
    lifetimeValue: Money,
    customerType: CustomerType)

  /** The select list of `final` for a customer and its (possibly NULL)
   *  `customer_orders` row. */
  function FinalRow(c: Customer, co: Option<CustomerOrders>): (r: DimCustomer)
    ensures r.customerId == c.customerId && r.customerUniqueId == c.customerUniqueId
    ensures r.city == c.city && r.state == c.state
    ensures r.customerType == Segment(Some(r.totalOrders))
    ensures co.Some? ==> r.totalOrders == co.value.totalOrders && r.lifetimeValue == Coalesce(co.value.totalRevenue, 0)
    ensures co.None? ==> r.totalOrders == 0 && r.lifetimeValue == 0 && r.customerType == NoOrders
  {
    var n := if co.Some? then Some(co.value.totalOrders) else None;
    var revenue := if co.Some? then co.value.totalRevenue else None;
    SegmentAfterCoalesce(n);
    DimCustomer(c.customerId, c.customerUniqueId, c.city, c.state,
      Coalesce(n, 0), Coalesce(revenue, 0), Segment(n))
  }

  function FinalRows(c: Customer, cos: seq<Option<CustomerOrders>>): seq<DimCustomer> {
    seq(|cos|, k requires 0 <= k < |cos| => FinalRow(c, cos[k]))
  }

  function JoinCustomers(customers: seq<Customer>, cte: seq<CustomerOrders>): (rows: seq<DimCustomer>)
    ensures |rows| >= |customers|
  {
    if customers == [] then []
    else FinalRows(customers[0], NullExtended(CteWithId(cte, customers[0].customerId)))
           + JoinCustomers(customers[1..], cte)
  }

  /** The customer ids of some dimension rows. */
  function RowIds(rows: seq<DimCustomer>): set<Id> {
    set r | r in rows :: r.customerId
  }

  /** The customer ids of some customer-master rows. */
  function MasterIds(customers: seq<Customer>): set<Id> {
    set c | c in customers :: c.customerId
  }

  /** The LEFT JOIN keeps every customer-master row and adds no row for any
   *  other customer id: the dimension's ids are exactly the master's. */
  lemma {:induction false} JoinCustomersKeys(customers: seq<Customer>, cte: seq<CustomerOrders>)
    ensures RowIds(JoinCustomers(customers, cte)) == MasterIds(customers)
  {
    if customers != [] {
      var c0 := customers[0];
      var head := FinalRows(c0, NullExtended(CteWithId(cte, c0.customerId)));
      var rest := JoinCustomers(customers[1..], cte);
      JoinCustomersKeys(customers[1..], cte);
      assert JoinCustomers(customers, cte) == head + rest;
      assert RowIds(head) == {c0.customerId} by {
        assert head[0] in head;
      }
      assert RowIds(head + rest) == RowIds(head) + RowIds(rest);
      assert MasterIds(customers) == {c0.customerId} + MasterIds(customers[1..]) by {
        assert customers == [c0] + customers[1..];
      }
    }
  }

  /** A dimension row carrying the customer-master columns of `c`. */
  predicate RowOf(r: DimCustomer, c: Customer) {
    && r.customerId == c.customerId
    && r.customerUniqueId == c.customerUniqueId
    && r.city == c.city
    && r.state == c.state
  }

  /** Some row of `rows` carries the columns of `c`. */
  predicate HasRowOf(rows: seq<DimCustomer>, c: Customer) {
    exists r | r in rows :: RowOf(r, c)
  }

  /** The LEFT JOIN keeps every customer-master row: each has a joined row
   *  carrying its own id, unique id, city and state. */
  lemma {:induction false} JoinCustomersKeepsRows(customers: seq<Customer>, cte: seq<CustomerOrders>)
    ensures forall i | 0 <= i < |customers| :: HasRowOf(JoinCustomers(customers, cte), customers[i])
  {
    if customers != [] {
      var c0 := customers[0];
      var head := FinalRows(c0, NullExtended(CteWithId(cte, c0.customerId)));
      var rest := JoinCustomers(customers[1..], cte);
      JoinCustomersKeepsRows(customers[1..], cte);
      assert JoinCustomers(customers, cte) == head + rest;
      forall i | 0 <= i < |customers|
        ensures HasRowOf(head + rest, customers[i])
      {
        if i == 0 {
          assert head[0] in head + rest && RowOf(head[0], c0);
        } else {
          assert customers[i] == customers[1..][i - 1];
          var r :| r in rest && RowOf(r, customers[i]);
          assert r in head + rest;
        }
      }
    }
  }

  /** With distinct `customer_id`s in the aggregate rows, a customer joins to
   *  at most one of them. */
  lemma {:induction false} CteWithIdAtMostOne(cte: seq<CustomerOrders>, c: Id)
    requires OneRowPerCustomer(cte)
    ensures |CteWithId(cte, c)| <= 1
  {
    if cte != [] {
      var rest := cte[1..];
      assert OneRowPerCustomer(rest) by {
        forall i, j | 0 <= i < j < |rest| ensures rest[i].customerId != rest[j].customerId {
          assert rest[i] == cte[i + 1] && rest[j] == cte[j + 1];
        }
      }
      CteWithIdAtMostOne(rest, c);
      if cte[0].customerId == c {
        forall j | 0 <= j < |rest| ensures rest[j].customerId != c {
          assert rest[j] == cte[j + 1];
        }
        CteWithIdNone(rest, c);
      }
    }
  }

  lemma {:induction false} CteWithIdNone(cte: seq<CustomerOrders>, c: Id)
    requires forall j | 0 <= j < |cte| :: cte[j].customerId != c
    ensures CteWithId(cte, c) == []
  {
    if cte != [] {
      CteWithIdNone(cte[1..], c);
    }
  }

  /** With distinct `customer_id`s in the aggregate rows, the LEFT JOIN gives
   *  exactly one row per customer. */
  lemma {:induction false} JoinCustomersCount(customers: seq<Customer>, cte: seq<CustomerOrders>)
    requires OneRowPerCustomer(cte)
    ensures |JoinCustomers(customers, cte)| == |customers|
  {
    if customers != [] {
      CteWithIdAtMostOne(cte, customers[0].customerId);
      JoinCustomersCount(customers[1..], cte);
    }
  }

  /** `dim_customers`. */
  function BuildDimCustomers(customers: seq<Customer>, orders: seq<Order>, items: seq<OrderItem>): (rows: seq<DimCustomer>)
    ensures |rows| == |customers|
    ensures RowIds(rows) == MasterIds(customers)
  {
    var cte := CustomerOrdersCte(orders, items);
    JoinCustomersCount(customers, cte);
    JoinCustomersKeys(customers, cte);
    JoinCustomers(customers, cte)
  }

  /** What the dimension row of customer `c` holds: its own descriptive
   *  columns, the number of distinct orders it placed, the sum of the
   *  non-NULL prices of those orders' items (0 when there is none), and the
   *  segment of that order count. */
  ghost predicate DimRowFor(r: DimCustomer, c: Customer, orders: seq<Order>, items: seq<OrderItem>) {
    && r.customerId == c.customerId
    && r.customerUniqueId == c.customerUniqueId
    && r.city == c.city
    && r.state == c.state
    && r.totalOrders == OrderCount(orders, c.customerId)
    && r.lifetimeValue == Total(CustomerPrices(orders, items, c.customerId))
    && r.customerType == Segment(Some(r.totalOrders))
  }

  /** The final row of a customer with orders reads its count and revenue
   *  off the group aggregate. */
  lemma RowWithOrders(c: Customer, orders: seq<Order>, items: seq<OrderItem>)
    requires OrderCount(orders, c.customerId) > 0
    ensures DimRowFor(FinalRow(c, Some(Aggregate(c.customerId, GroupOf(JoinOrderItems(orders, items), c.customerId)))),
                      c, orders, items)
  {
    var id := c.customerId;
    GroupOrderIds(orders, items, id);
    GroupPrices(orders, items, id);
  }

  /** The final row of a customer without orders holds zeros. */
  lemma RowWithoutOrders(c: Customer, orders: seq<Order>, items: seq<OrderItem>)
    requires OrderCount(orders, c.customerId) == 0
    ensures DimRowFor(FinalRow(c, None), c, orders, items)
  {
    var id := c.customerId;
    var g := GroupOf(JoinOrderItems(orders, items), id);
    GroupOrderIds(orders, items, id);
    OrderIdsEmpty(g);
    GroupPrices(orders, items, id);
    assert Prices(g) == [];
  }

  lemma CustomerRow(c: Customer, orders: seq<Order>, items: seq<OrderItem>)
    ensures var rows := FinalRows(c, NullExtended(CteWithId(CustomerOrdersCte(orders, items), c.customerId)));
            |rows| == 1 && DimRowFor(rows[0], c, orders, items)
  {
    var id := c.customerId;
    var m := CteWithId(CustomerOrdersCte(orders, items), id);
    CustomerOrdersLookup(orders, items, id);
    if OrderCount(orders, id) > 0 {
      RowWithOrders(c, orders, items);
    } else {
      RowWithoutOrders(c, orders, items);
    }
    assert FinalRows(c, NullExtended(m)) == [FinalRow(c, NullExtended(m)[0])];
  }

  /** The grain of `dim_customers`: exactly one row per customer-master row,
   *  in master order, whatever the orders hold (the GROUP BY leaves at most
   *  one `customer_orders` row per key, so the LEFT JOIN neither drops nor
   *  multiplies customers). Each row is as `DimRowFor` describes; in
   *  particular an order whose customer id is not in the master yields no
   *  row of its own. */
  lemma {:induction false} DimCustomersGrain(customers: seq<Customer>, orders: seq<Order>, items: seq<OrderItem>)
    ensures |BuildDimCustomers(customers, orders, items)| == |customers|
    ensures forall i | 0 <= i < |customers| ::
              DimRowFor(BuildDimCustomers(customers, orders, items)[i], customers[i], orders, items)
  {
    if customers != [] {
      var cte := CustomerOrdersCte(orders, items);
      CustomerRow(customers[0], orders, items);
      DimCustomersGrain(customers[1..], orders, items);
      var dim := BuildDimCustomers(customers, orders, items);
      var rest := BuildDimCustomers(customers[1..], orders, items);
      assert dim == FinalRows(customers[0], NullExtended(CteWithId(cte, customers[0].customerId))) + rest;
      forall i | 1 <= i < |customers|
        ensures DimRowFor(dim[i], customers[i], orders, items)
      {
        assert dim[i] == rest[i - 1] && customers[i] == customers[1..][i - 1];
      }
    }
  }

  lemma {:induction false} NoOrdersNoPrices(orders: seq<Order>, items: seq<OrderItem>, c: Id)
    requires forall o | o in orders :: o.customerId != c
    ensures CustomerPrices(orders, items, c) == []
  {
    if orders != [] {
      assert forall o | o in orders[1..] :: o in orders;
      NoOrdersNoPrices(orders[1..], items, c);
    }
  }

  /** A customer with no orders still has a row, with zero orders, zero
   *  lifetime value and the "No Orders" label. */
  lemma CustomerWithoutOrders(customers: seq<Customer>, orders: seq<Order>, items: seq<OrderItem>, i: nat)
    requires i < |customers|
    requires forall o | o in orders :: o.customerId != customers[i].customerId
    ensures var dim := BuildDimCustomers(customers, orders, items);
            && i < |dim|
            && dim[i].customerId == customers[i].customerId
            && dim[i].totalOrders == 0 && dim[i].lifetimeValue == 0 && dim[i].customerType == NoOrders
  {
    DimCustomersGrain(customers, orders, items);
    NoOrdersNoPrices(orders, items, customers[i].customerId);
    assert OrderIdsFor(orders, customers[i].customerId) == {};
  }

  lemma {:induction false} NoItemsNoPrices(orders: seq<Order>, items: seq<OrderItem>, c: Id)
    requires forall o, it | o in orders && o.customerId == c && it in items :: it.orderId != o.orderId
    ensures CustomerPrices(orders, items, c) == []
  {
    if orders != [] {
      assert forall o | o in orders[1..] :: o in orders;
      NoItemsNoPrices(orders[1..], items, c);
      if orders[0].customerId == c {
        assert ItemsOfOrder(items, orders[0].orderId) == [];
      }
    }
  }

  /** A customer whose orders have no items is counted with its orders but
   *  has lifetime value 0 (the NULL sum is COALESCEd), so it is not labelled
   *  "No Orders". */
  lemma CustomerWithEmptyOrders(customers: seq<Customer>, orders: seq<Order>, items: seq<OrderItem>, i: nat)
    requires i < |customers|
    requires exists o | o in orders :: o.customerId == customers[i].customerId
    requires forall o, it | o in orders && o.customerId == customers[i].customerId && it in items ::
               it.orderId != o.orderId
    ensures var dim := BuildDimCustomers(customers, orders, items);
            && i < |dim|
            && dim[i].totalOrders >= 1 && dim[i].lifetimeValue == 0 && dim[i].customerType != NoOrders
  {
    DimCustomersGrain(customers, orders, items);
    NoItemsNoPrices(orders, items, customers[i].customerId);
    var o :| o in orders && o.customerId == customers[i].customerId;
    assert o.orderId in OrderIdsFor(orders, customers[i].customerId);
  }

  lemma PriceValuesCons(it: OrderItem, its: seq<OrderItem>)
    ensures ItemPriceValues([it] + its)
         == (if it.price.Some? then [it.price.value] else []) + ItemPriceValues(its)
  {
  }

  lemma {:induction false} SamePrices(items: seq<OrderItem>, items': seq<OrderItem>, id: Id)
    requires |items| == |items'|
    requires forall k | 0 <= k < |items| :: items[k].orderId == items'[k].orderId && items[k].price == items'[k].price
    ensures ItemPriceValues(ItemsOfOrder(items, id)) == ItemPriceValues(ItemsOfOrder(items', id))
  {
    if items != [] {
      SamePrices(items[1..], items'[1..], id);
      var a, b := ItemsOfOrder(items, id), ItemsOfOrder(items', id);
      var a1, b1 := ItemsOfOrder(items[1..], id), ItemsOfOrder(items'[1..], id);
      if items[0].orderId == id {
        assert a == [items[0]] + a1 && b == [items'[0]] + b1;
        PriceValuesCons(items[0], a1);
        PriceValuesCons(items'[0], b1);
      } else {
        assert a == a1 && b == b1;
      }
    }
  }

  lemma {:induction false} FreightIgnoredPrices(orders: seq<Order>, items: seq<OrderItem>, items': seq<OrderItem>, c: Id)
    requires |items| == |items'|
    requires forall k | 0 <= k < |items| :: items[k].orderId == items'[k].orderId && items[k].price == items'[k].price
    ensures CustomerPrices(orders, items, c) == CustomerPrices(orders, items', c)
  {
    if orders != [] {
      SamePrices(items, items', orders[0].orderId);
      FreightIgnoredPrices(orders[1..], items, items', c);
    }
  }

  /** Lifetime value is revenue only: item rows that differ in anything but
   *  their order id and price (freight, product) give the same dimension. */
  lemma FreightIgnored(customers: seq<Customer>, orders: seq<Order>, items: seq<OrderItem>, items': seq<OrderItem>)
    requires |items| == |items'|
    requires forall k | 0 <= k < |items| :: items[k].orderId == items'[k].orderId && items[k].price == items'[k].price
    ensures BuildDimCustomers(customers, orders, items) == BuildDimCustomers(customers, orders, items')
  {
    DimCustomersGrain(customers, orders, items);
    DimCustomersGrain(customers, orders, items');
    var d, d' := BuildDimCustomers(customers, orders, items), BuildDimCustomers(customers, orders, items');
    forall i | 0 <= i < |customers| ensures d[i] == d'[i] {
      FreightIgnoredPrices(orders, items, items', customers[i].customerId);
    }
  }

  /** The declared data tests of `dim_customers`: `customer_id` is unique
   *  (given a customer master with unique ids) and `customer_type` takes only
   *  the accepted values. */
  lemma DimCustomersTests(customers: seq<Customer>, orders: seq<Order>, items: seq<OrderItem>)
    requires UniqueCustomerIds(customers)
    ensures var dim := BuildDimCustomers(customers, orders, items);
            && (forall i, j | 0 <= i < j < |dim| :: dim[i].customerId != dim[j].customerId)
            && (forall r | r in dim :: r.customerType.Label() in {"Returning", "One-time", "No Orders"})
  {
    DimCustomersGrain(customers, orders, items);
  }

  /** Two orders of one customer with different ids count as two. */
  lemma TwoOrderCount(c: Id, o1: Order, o2: Order)
    requires o1.customerId == c && o2.customerId == c && o1.orderId != o2.orderId
    ensures OrderCount([o1, o2], c) == 2
  {
    assert OrderIdsFor([o1, o2], c) == {o1.orderId, o2.orderId};
  }

  /** The item prices of those two orders total the sum of the two prices. */
  lemma TwoOrderPrices(c: Id, o1: Order, o2: Order, it1: OrderItem, it2: OrderItem, p1: Money, p2: Money)
    requires o1.customerId == c && o2.customerId == c && o1.orderId != o2.orderId
    requires it1.orderId == o1.orderId && it1.price == Some(p1)
    requires it2.orderId == o2.orderId && it2.price == Some(p2)
    ensures Total(CustomerPrices([o1, o2], [it1, it2], c)) == p1 + p2
  {
    var orders, items := [o1, o2], [it1, it2];
    assert ItemsOfOrder(items, o1.orderId) == [it1];
    assert ItemsOfOrder(items, o2.orderId) == [it2];
    assert [it1][1..] == [] && [it2][1..] == [];
    assert ItemPriceValues([it1]) == [p1] && ItemPriceValues([it2]) == [p2];
    assert orders[1..] == [o2] && orders[1..][1..] == [];
    assert CustomerPrices(orders[1..], items, c) == [p2];
    assert CustomerPrices(orders, items, c) == [p1, p2];
    assert [p1, p2][1..] == [p2] && [p2][1..] == [];
    assert Total([p2]) == p2 + Total([]);
  }

  /** A customer with two distinct orders, each with one item (say 150.00
   *  and 30.00, freight on top), is a returning customer whose lifetime
   *  value is the sum of the two prices (180.00). */
  lemma TwoOrderCustomer(c: Customer, o1: Order, o2: Order, it1: OrderItem, it2: OrderItem, p1: Money, p2: Money)
    requires o1.customerId == c.customerId && o2.customerId == c.customerId
    requires o1.orderId != o2.orderId
    requires it1.orderId == o1.orderId && it1.price == Some(p1)
    requires it2.orderId == o2.orderId && it2.price == Some(p2)
    ensures |BuildDimCustomers([c], [o1, o2], [it1, it2])| == 1
    ensures BuildDimCustomers([c], [o1, o2], [it1, it2])[0]
         == DimCustomer(c.customerId, c.customerUniqueId, c.city, c.state, 2, p1 + p2, Returning)
  {
    TwoOrderCount(c.customerId, o1, o2);
    TwoOrderPrices(c.customerId, o1, o2, it1, it2, p1, p2);
    DimCustomersGrain([c], [o1, o2], [it1, it2]);
  }
}
