/** The staging relations the marts are built from (`stg_orders`,
 *  `stg_order_items`, `stg_products`, `stg_customers`), as sequences of rows,
 *  and the key lookups the joins use. Money is held in centavos, so sums are
 *  exact. Key columns are never NULL; measures, timestamps and the product
 *  category may be. */
module Warehouse {
  import opened Sql

  type Id = string
  /** An amount in centavos (hundredths of a real). */
  type Money = int
  /** A purchase instant, as a count of seconds. */
  type Timestamp = int

  datatype Order = Order(orderId: Id, customerId: Id, purchaseTs: Option<Timestamp>)

  datatype OrderItem = OrderItem(orderId: Id, productId: Id, price: Option<Money>, freightValue: Option<Money>)

  datatype Product = Product(productId: Id, categoryName: Option<string>)

  datatype Customer = Customer(customerId: Id, customerUniqueId: Id, city: string, state: string)

  predicate UniqueOrderIds(orders: seq<Order>) {
    forall i, j | 0 <= i < j < |orders| :: orders[i].orderId != orders[j].orderId
  }

  predicate UniqueProductIds(products: seq<Product>) {
    forall i, j | 0 <= i < j < |products| :: products[i].productId != products[j].productId
  }

  predicate UniqueCustomerIds(customers: seq<Customer>) {
    forall i, j | 0 <= i < j < |customers| :: customers[i].customerId != customers[j].customerId
  }

  /** `orders WHERE order_id = id`, in row order. */
  function OrdersWithId(orders: seq<Order>, id: Id): (r: seq<Order>)
    ensures |r| <= |orders|
    ensures forall o :: o in r <==> o in orders && o.orderId == id
    ensures r == [] <==> forall k | 0 <= k < |orders| :: orders[k].orderId != id
  {
    if orders == [] then []
    else (if orders[0].orderId == id then [orders[0]] else []) + OrdersWithId(orders[1..], id)
  }

  /** `products WHERE product_id = id`, in row order. */
  function ProductsWithId(products: seq<Product>, id: Id): (r: seq<Product>)
    ensures |r| <= |products|
    ensures forall p :: p in r <==> p in products && p.productId == id
    ensures r == [] <==> forall k | 0 <= k < |products| :: products[k].productId != id
  {
    if products == [] then []
    else (if products[0].productId == id then [products[0]] else []) + ProductsWithId(products[1..], id)
  }

  /** `order_items WHERE order_id = id`, in row order. */
  function ItemsOfOrder(items: seq<OrderItem>, id: Id): (r: seq<OrderItem>)
    ensures |r| <= |items|
    ensures forall it :: it in r <==> it in items && it.orderId == id
    ensures r == [] <==> forall k | 0 <= k < |items| :: items[k].orderId != id
  {
    if items == [] then []
    else (if items[0].orderId == id then [items[0]] else []) + ItemsOfOrder(items[1..], id)
  }

  /** The filter keeps every copy of an order row with the key and no other row, so
   *  a duplicated key matches as many times as it occurs. */
  lemma {:induction false} OrdersWithIdCount(orders: seq<Order>, id: Id)
    ensures forall o :: multiset(OrdersWithId(orders, id))[o] == if o.orderId == id then multiset(orders)[o] else 0
  {
    if orders != [] {
      OrdersWithIdCount(orders[1..], id);
      assert orders == [orders[0]] + orders[1..];
    }
  }

  /** The filter keeps every copy of a product row with the key and no other row, so
   *  a duplicated key matches as many times as it occurs. */
  lemma {:induction false} ProductsWithIdCount(products: seq<Product>, id: Id)
    ensures forall p :: multiset(ProductsWithId(products, id))[p] == if p.productId == id then multiset(products)[p] else 0
  {
    if products != [] {
      ProductsWithIdCount(products[1..], id);
      assert products == [products[0]] + products[1..];
    }
  }

  /** The filter keeps every copy of an item row with the key and no other row, so
   *  a duplicated key matches as many times as it occurs. */
  lemma {:induction false} ItemsOfOrderCount(items: seq<OrderItem>, id: Id)
    ensures forall i :: multiset(ItemsOfOrder(items, id))[i] == if i.orderId == id then multiset(items)[i] else 0
  {
    if items != [] {
      ItemsOfOrderCount(items[1..], id);
      assert items == [items[0]] + items[1..];
    }
  }

  /** With `order_id` unique, a key matches at most one order. */
  lemma {:induction false} UniqueOrderMatch(orders: seq<Order>, id: Id)
    requires UniqueOrderIds(orders)
    ensures |OrdersWithId(orders, id)| <= 1
  {
    if orders != [] {
      var rest := orders[1..];
      assert UniqueOrderIds(rest) by {
        forall i, j | 0 <= i < j < |rest| ensures rest[i].orderId != rest[j].orderId {
          assert rest[i] == orders[i + 1] && rest[j] == orders[j + 1];
        }
      }
      UniqueOrderMatch(rest, id);
      if orders[0].orderId == id {
        forall j | 0 <= j < |rest| ensures rest[j].orderId != id {
          assert rest[j] == orders[j + 1];
        }
      }
    }
  }

  /** With `product_id` unique, a key matches at most one product. */
  lemma {:induction false} UniqueProductMatch(products: seq<Product>, id: Id)
    requires UniqueProductIds(products)
    ensures |ProductsWithId(products, id)| <= 1
  {
    if products != [] {
      var rest := products[1..];
      assert UniqueProductIds(rest) by {
        forall i, j | 0 <= i < j < |rest| ensures rest[i].productId != rest[j].productId {
          assert rest[i] == products[i + 1] && rest[j] == products[j + 1];
        }
      }
      UniqueProductMatch(rest, id);
      if products[0].productId == id {
        forall j | 0 <= j < |rest| ensures rest[j].productId != id {
          assert rest[j] == products[j + 1];
        }
      }
    }
  }
}
