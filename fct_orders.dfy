/** The order-line fact relation `fct_orders`. Item rows drive the query;
 *  each is LEFT-joined to the order with its `order_id` (giving the customer
 *  and purchase timestamp) and to the product with its `product_id` (giving
 *  the category), and carries its price, its freight and their sum as
 *  `total_order_value`.
 *
 *  A LEFT JOIN pairs a row with every matching row on the other side, or with
 *  one all-NULL row when nothing matches, so a duplicated key multiplies rows
 *  and a missing one never drops a row. The relation is built in the join's
 *  natural order; SQL itself promises no row order. */
module FctOrders {
  import opened Sql
  import opened Warehouse

  datatype FactRow = FactRow(
    orderId: Id,
    customerId: Option<Id>,
    productId: Id,
    purchaseTs: Option<Timestamp>,
    categoryName: Option<string>,
    price: Option<Money>,
    freightValue: Option<Money>,
    totalOrderValue: Option<Money>)

  /** The select list of `final` for one item row and its (possibly NULL)
   *  order and product rows. */
  function Project(item: OrderItem, o: Option<Order>, p: Option<Product>): (r: FactRow)
    ensures CopiesItem(r, item)
    ensures o.Some? ==> r.customerId == Some(o.value.customerId) && r.purchaseTs == o.value.purchaseTs
    ensures o.None? ==> r.customerId.None? && r.purchaseTs.None?
    ensures p.Some? ==> r.categoryName == p.value.categoryName
    ensures p.None? ==> r.categoryName.None?
  {
    FactRow(
      item.orderId,
      if o.Some? then Some(o.value.customerId) else None,
      item.productId,
      if o.Some? then o.value.purchaseTs else None,
      if p.Some? then p.value.categoryName else None,
      item.price,
      item.freightValue,
      Add(item.price, item.freightValue))
  }

  /** A fact row carries the item's own key and measure columns, and a total
   *  that is their NULL-propagating sum. */
  predicate CopiesItem(r: FactRow, item: OrderItem) {
    && r.orderId == item.orderId
    && r.productId == item.productId
    && r.price == item.price
    && r.freightValue == item.freightValue
    && r.totalOrderValue == Add(item.price, item.freightValue)
  }

  /** One row of `order_items LEFT JOIN orders`, joined to the product side `ps`. */
  function WithProducts(item: OrderItem, o: Option<Order>, ps: seq<Option<Product>>): seq<FactRow> {
    seq(|ps|, k requires 0 <= k < |ps| => Project(item, o, ps[k]))
  }

  /** The order side `os` of one item row, each joined to the product side `ps`. */
  function WithOrders(item: OrderItem, os: seq<Option<Order>>, ps: seq<Option<Product>>): (r: seq<FactRow>)
    ensures |r| == |os| * |ps|
    ensures forall f | f in r :: CopiesItem(f, item)
  {
    if os == [] then []
    else
      var rest := WithOrders(item, os[1..], ps);
      assert |os| * |ps| == |ps| + (|os| - 1) * |ps|;
      WithProducts(item, os[0], ps) + rest
  }

  /** The fact rows one item row contributes. */
  function ItemFacts(item: OrderItem, orders: seq<Order>, products: seq<Product>): (r: seq<FactRow>)
    ensures |r| == AtLeastOne(|OrdersWithId(orders, item.orderId)|) * AtLeastOne(|ProductsWithId(products, item.productId)|)
    ensures forall f | f in r :: CopiesItem(f, item)
  {
    WithOrders(item,
      NullExtended(OrdersWithId(orders, item.orderId)),
      NullExtended(ProductsWithId(products, item.productId)))
  }

  /** `fct_orders`. Every item row has a fact row copying it (the joins are
   *  LEFT joins), every fact row copies some item row, and every
   *  `total_order_value` is `price + freight_value` of its own row. */
  function BuildFctOrders(items: seq<OrderItem>, orders: seq<Order>, products: seq<Product>): (facts: seq<FactRow>)
    ensures |facts| >= |items|
    ensures forall r | r in facts :: r.totalOrderValue == Add(r.price, r.freightValue)
    ensures forall r | r in facts :: exists it | it in items :: CopiesItem(r, it)
    ensures forall it | it in items :: exists r | r in facts :: CopiesItem(r, it)
  {
    if items == [] then []
    else
      var head := ItemFacts(items[0], orders, products);
      var rest := BuildFctOrders(items[1..], orders, products);
      assert |head| >= 1;
      assert head[0] in head + rest && CopiesItem(head[0], items[0]);
      assert forall it | it in items[1..] :: it in items;
      assert forall it | it in items :: it == items[0] || it in items[1..];
      head + rest
  }

  /** Rows a LEFT JOIN keeps for `n` matches: the matches, or one NULL row. */
  function AtLeastOne(n: nat): nat {
    if n == 0 then 1 else n
  }

  /** Reference row count of `fct_orders`, item by item: the matching orders
   *  times the matching products, each side counted as one when unmatched. */
  function FanOut(items: seq<OrderItem>, orders: seq<Order>, products: seq<Product>): int {
    if items == [] then 0
    else
      var orderRows := AtLeastOne(|OrdersWithId(orders, items[0].orderId)|);
      var productRows := AtLeastOne(|ProductsWithId(products, items[0].productId)|);
      orderRows * productRows + FanOut(items[1..], orders, products)
  }

  /** Without any key assumption the fact relation has exactly `FanOut` rows:
   *  duplicated order or product keys multiply an item's rows, and missing
   *  ones never remove them. */
  lemma {:induction false} FactRowCount(items: seq<OrderItem>, orders: seq<Order>, products: seq<Product>)
    ensures |BuildFctOrders(items, orders, products)| == FanOut(items, orders, products)
  {
    if items != [] {
      FactRowCount(items[1..], orders, products);
    }
  }

  /** What the fact row of `item` holds when the order and product keys are
   *  unique: the item's own columns, the matching order's customer and
   *  timestamp, the matching product's category, and NULL for an order or
   *  product that does not exist. */
  ghost predicate FactRowFor(r: FactRow, item: OrderItem, orders: seq<Order>, products: seq<Product>) {
    && CopiesItem(r, item)
    && (forall o | o in orders && o.orderId == item.orderId ::
          r.customerId == Some(o.customerId) && r.purchaseTs == o.purchaseTs)
    && ((forall o | o in orders :: o.orderId != item.orderId) ==> r.customerId.None? && r.purchaseTs.None?)
    && (forall p | p in products && p.productId == item.productId :: r.categoryName == p.categoryName)
    && ((forall p | p in products :: p.productId != item.productId) ==> r.categoryName.None?)
  }

  lemma ItemFactUnique(item: OrderItem, orders: seq<Order>, products: seq<Product>)
    requires UniqueOrderIds(orders) && UniqueProductIds(products)
    ensures |ItemFacts(item, orders, products)| == 1
    ensures FactRowFor(ItemFacts(item, orders, products)[0], item, orders, products)
  {
    var om := OrdersWithId(orders, item.orderId);
    var pm := ProductsWithId(products, item.productId);
    UniqueOrderMatch(orders, item.orderId);
    UniqueProductMatch(products, item.productId);
    var os, ps := NullExtended(om), NullExtended(pm);
    var r := Project(item, os[0], ps[0]);
    assert ItemFacts(item, orders, products) == WithProducts(item, os[0], ps) == [r];
    forall o | o in orders && o.orderId == item.orderId
      ensures r.customerId == Some(o.customerId) && r.purchaseTs == o.purchaseTs
    {
      assert o in om;
    }
    forall p | p in products && p.productId == item.productId
      ensures r.categoryName == p.categoryName
    {
      assert p in pm;
    }
  }

  /** The grain of `fct_orders`: with `orders.order_id` and
   *  `products.product_id` unique there is exactly one fact row per item row,
   *  in item order, and duplicated item rows stay separate rows. */
  lemma {:induction false} FactGrain(items: seq<OrderItem>, orders: seq<Order>, products: seq<Product>)
    requires UniqueOrderIds(orders) && UniqueProductIds(products)
    ensures |BuildFctOrders(items, orders, products)| == |items|
    ensures forall i | 0 <= i < |items| ::
              FactRowFor(BuildFctOrders(items, orders, products)[i], items[i], orders, products)
  {
    if items != [] {
      ItemFactUnique(items[0], orders, products);
      FactGrain(items[1..], orders, products);
      var facts := BuildFctOrders(items, orders, products);
      var head := ItemFacts(items[0], orders, products);
      assert facts == head + BuildFctOrders(items[1..], orders, products);
      assert facts[0] == head[0] && facts[1..] == BuildFctOrders(items[1..], orders, products);
      FactRowsCons(facts, items, orders, products);
    }
  }

  /** Row-by-row agreement extends from the tails to whole sequences. */
  lemma FactRowsCons(facts: seq<FactRow>, items: seq<OrderItem>, orders: seq<Order>, products: seq<Product>)
    requires items != [] && |facts| == |items|
    requires FactRowFor(facts[0], items[0], orders, products)
    requires forall i | 0 <= i < |items| - 1 :: FactRowFor(facts[1..][i], items[1..][i], orders, products)
    ensures forall i | 0 <= i < |items| :: FactRowFor(facts[i], items[i], orders, products)
  {
    forall i | 1 <= i < |items|
      ensures FactRowFor(facts[i], items[i], orders, products)
    {
      assert facts[i] == facts[1..][i - 1] && items[i] == items[1..][i - 1];
    }
  }

  lemma {:induction false} ItemFactsIncluded(items: seq<OrderItem>, orders: seq<Order>, products: seq<Product>, i: nat)
    requires i < |items|
    ensures forall r | r in ItemFacts(items[i], orders, products) :: r in BuildFctOrders(items, orders, products)
  {
    var head := ItemFacts(items[0], orders, products);
    var rest := BuildFctOrders(items[1..], orders, products);
    assert BuildFctOrders(items, orders, products) == head + rest;
    if i > 0 {
      assert items[1..][i - 1] == items[i];
      ItemFactsIncluded(items[1..], orders, products, i - 1);
    }
  }

  /** An item row is never dropped, whatever the keys: it has a fact row
   *  copying its columns, whose customer and timestamp are NULL when no order
   *  has its `order_id` and whose category is NULL when no product has its
   *  `product_id`. */
  lemma UnmatchedItemKept(items: seq<OrderItem>, orders: seq<Order>, products: seq<Product>, i: nat)
    requires i < |items|
    ensures exists r | r in BuildFctOrders(items, orders, products) ::
      && CopiesItem(r, items[i])
      && ((forall o | o in orders :: o.orderId != items[i].orderId) ==> r.customerId.None? && r.purchaseTs.None?)
      && ((forall p | p in products :: p.productId != items[i].productId) ==> r.categoryName.None?)
  {
    var item := items[i];
    var os := NullExtended(OrdersWithId(orders, item.orderId));
    var ps := NullExtended(ProductsWithId(products, item.productId));
    var r := Project(item, os[0], ps[0]);
    assert ItemFacts(item, orders, products)[0] == r;
    ItemFactsIncluded(items, orders, products, i);
    assert r in BuildFctOrders(items, orders, products);
  }

  /** An order side without a NULL row gives every fact row a customer. */
  lemma {:induction false} JoinedOrdersHaveCustomer(item: OrderItem, os: seq<Option<Order>>, ps: seq<Option<Product>>)
    requires forall k | 0 <= k < |os| :: os[k].Some?
    ensures forall f | f in WithOrders(item, os, ps) :: f.customerId.Some?
  {
    if os != [] {
      JoinedOrdersHaveCustomer(item, os[1..], ps);
      assert forall k | 0 <= k < |os| - 1 :: os[1..][k] == os[k + 1];
      assert WithOrders(item, os, ps) == WithProducts(item, os[0], ps) + WithOrders(item, os[1..], ps);
    }
  }

  /** The declared `not_null` test on `fct_orders`: `order_id` and
   *  `product_id` are never NULL (they are copied from the item row), and
   *  `customer_id` is never NULL as long as every item's order exists. */
  lemma {:induction false} FctOrdersTests(items: seq<OrderItem>, orders: seq<Order>, products: seq<Product>)
    requires forall it | it in items :: exists o | o in orders :: o.orderId == it.orderId
    ensures forall r | r in BuildFctOrders(items, orders, products) :: r.customerId.Some?
  {
    if items != [] {
      var item := items[0];
      var om := OrdersWithId(orders, item.orderId);
      var o :| o in orders && o.orderId == item.orderId;
      assert o in om;
      assert forall it | it in items[1..] :: it in items;
      FctOrdersTests(items[1..], orders, products);
      JoinedOrdersHaveCustomer(item, NullExtended(om), NullExtended(ProductsWithId(products, item.productId)));
    }
  }

  /** The `not_null` test on `customer_id` fails for an item whose order is
   *  missing: its fact row has a NULL customer. */
  lemma OrphanItemFailsTest(item: OrderItem, products: seq<Product>)
    ensures |BuildFctOrders([item], [], products)| > 0
    ensures BuildFctOrders([item], [], products)[0].customerId.None?
  {
    var facts := BuildFctOrders([item], [], products);
    var ps := NullExtended(ProductsWithId(products, item.productId));
    assert facts == ItemFacts(item, [], products) + [];
    assert facts[0] == Project(item, None, ps[0]);
  }

  /** An item priced 49.90 with 15.10 freight has a total order value of 65.00. */
  lemma TotalOrderValueExample()
    ensures BuildFctOrders([OrderItem("o1", "p1", Some(4990), Some(1510))],
                           [Order("o1", "c1", Some(0))],
                           [Product("p1", Some("perfumaria"))])
         == [FactRow("o1", Some("c1"), "p1", Some(0), Some("perfumaria"), Some(4990), Some(1510), Some(6500))]
  {
  }
}
