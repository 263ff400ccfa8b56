# Olist warehouse marts and seller-tier chart, in Dafny

This project models the transformation logic of an e-commerce analytics
dashboard built on the Olist Brazilian marketplace data. It covers three
pieces.

- **`fct_orders`** (`fct_orders.dfy`) is the order-line fact relation.
  - Every `order_items` row is LEFT-joined to `orders` on `order_id` and to `products` on `product_id`.
  - Each row carries `total_order_value = price + freight_value`.
- **`dim_customers`** (`dim_customers.dfy`) is the customer dimension.
  - The `customer_orders` step LEFT-joins `orders` to `order_items` and groups by customer. It computes `count(distinct order_id)`, `sum(price)`, `avg(price)`, and `min`/`max` of the purchase timestamp.
  - That step is LEFT-joined onto the customer master. Order count and revenue are COALESCEd to 0.
  - A CASE labels each customer `Returning`, `One-time` or `No Orders`.
- **The seller-tier chart** (`seller_tiers.dfy`) counts sellers per `seller_tier`. It orders the bars Platinum, Gold, Silver, Bronze through an ordered categorical, not alphabetically. The Platinum KPI card is modelled beside it.

Two support modules hold the shared definitions.

- `sql.dfy` holds the SQL value semantics:
  - NULL as `Option`;
  - NULL-propagating `+` and COALESCE;
  - SUM, AVG, MIN and MAX, which skip NULLs and return NULL over no values;
  - the null-extended side of a LEFT JOIN.
- `warehouse.dfy` holds the staging rows and the key lookups the joins use.

Relations are sequences of rows. A LEFT JOIN is modelled in general: a duplicated key multiplies rows, and a missing key yields one all-NULL partner. Key uniqueness is therefore a precondition of the lemmas that need it, never of the builders.

Money is an `int` count of centavos, so sums are exact. AVG is a `real`. Timestamps are integers.

The `dim_customers` SQL exists in three variants:

| variant | aggregates | final select list |
|---|---|---|
| `streamlit_app.py`, `tabs/engineering.py` | count and sum | omits `customer_unique_id` |
| `pages/1_Data_Engineering.py` | adds `avg` | includes `customer_unique_id` |
| `pages/3_Data_Engineering.py` | adds `avg`, `min` and `max` | includes `customer_unique_id` |

The model computes every aggregate column of `pages/3_Data_Engineering.py`. A shorter variant's columns have the same definitions. The dimension row includes `customer_unique_id`.

`avg_order_value` is, as the code computes it, the mean of the item prices. It is not a mean per order.

The declared `not_null` test on `fct_orders.customer_id` holds only when every item's order exists. `customer_id` comes from the LEFT-joined order, so an orphan item gets a NULL customer (`FctOrdersTests`, `OrphanItemFailsTest`).

## Model

| member | source | states |
|---|---|---|
| Sql.Coalesce | streamlit_app.py:832-833 | `COALESCE(x, d)` is x when x is not NULL and d when it is; used for `total_orders` and `lifetime_value` (see FinalRow) |
| Sql.Add | streamlit_app.py:798 | `a + b` is NULL exactly when either operand is NULL, and otherwise the sum; used for `total_order_value` (see Project, TotalOrderValueExample) |
| Sql.Sum | streamlit_app.py:821 | SUM is NULL exactly when every input is NULL; otherwise it is the total of the non-NULL values |
| Sql.Avg | pages/1_Data_Engineering.py:166 | AVG is NULL exactly when SUM is; otherwise it times the number of non-NULL values gives their total |
| Sql.Min | pages/3_Data_Engineering.py:134 | MIN is NULL iff all inputs are NULL; otherwise it is one of the inputs and no non-NULL input is smaller |
| Sql.Max | pages/3_Data_Engineering.py:135 | MAX is NULL iff all inputs are NULL; otherwise it is one of the inputs and no non-NULL input is larger |
| Sql.MinAtMostMax | pages/3_Data_Engineering.py:134-135 | over one column, MIN and MAX are NULL together, and MIN ≤ MAX |
| Sql.NullExtended | streamlit_app.py:800-801 | the right side of a LEFT JOIN for one row: every match, or exactly one NULL row when there is none |
| Warehouse.OrdersWithId | streamlit_app.py:800 | the orders matching a key: exactly the orders with that `order_id`, empty iff none has it |
| Warehouse.ProductsWithId | streamlit_app.py:801 | the products matching a key: exactly the products with that `product_id`, empty iff none has it |
| Warehouse.ItemsOfOrder | streamlit_app.py:823 | the items of an order: exactly the items with that `order_id`, empty iff none has it |
| Warehouse.OrdersWithIdCount | streamlit_app.py:800 | the match keeps every copy of an order row with the key, as often as it occurs, and no other row |
| Warehouse.ProductsWithIdCount | streamlit_app.py:801 | the match keeps every copy of a product row with the key, as often as it occurs, and no other row |
| Warehouse.ItemsOfOrderCount | streamlit_app.py:823 | the match keeps every copy of an item row with the order id, as often as it occurs, and no other row |
| Warehouse.UniqueOrderMatch | streamlit_app.py:800 | with `order_id` unique in `orders`, an item matches at most one order |
| Warehouse.UniqueProductMatch | streamlit_app.py:801 | with `product_id` unique in `products`, an item matches at most one product |
| FctOrders.Project | streamlit_app.py:790-798 | the select list of `final`: the row copies the item's keys, price and freight with their NULL-propagating sum; the customer and timestamp come from the joined order, or are NULL without one; the category comes from the joined product, or is NULL without one |
| FctOrders.WithOrders | streamlit_app.py:799-801 | one item row yields (order matches) × (product matches) rows, each copying the item's keys, price and freight |
| FctOrders.ItemFacts | streamlit_app.py:799-801 | one item row yields (order matches, or 1) × (product matches, or 1) fact rows, each copying that item |
| FctOrders.BuildFctOrders | streamlit_app.py:789-804 | every item row has a fact row copying it, and there are at least as many fact rows as item rows; every row copies some item row, and its `total_order_value` is its own `price + freight_value`, NULL if either is NULL (also pages/1_Data_Engineering.py:131, pages/3_Data_Engineering.py:91, tabs/engineering.py:129) |
| FctOrders.FactRowCount | streamlit_app.py:799-801 | without any key assumption, the row count is the sum over items of (matching orders, or 1) × (matching products, or 1) |
| FctOrders.ItemFactUnique | streamlit_app.py:790-801 | under unique keys, an item yields one row holding its matching order's customer and timestamp and its product's category |
| FctOrders.FactGrain | streamlit_app.py:799-801 | with unique order and product keys, there is exactly one fact row per item row, in item order (model order); row i holds item i's columns, its order's customer and timestamp, and its product's category; duplicate items stay separate (also pages/1_Data_Engineering.py:133-135, tabs/engineering.py:130-132) |
| FctOrders.ItemFactsIncluded | streamlit_app.py:799 | every row an item contributes is in the fact relation |
| FctOrders.UnmatchedItemKept | streamlit_app.py:800-801 | for any keys, every item has a fact row; its customer and timestamp are NULL when no order matches, and its category is NULL when no product matches (also pages/3_Data_Engineering.py:93-95) |
| FctOrders.TotalOrderValueExample | streamlit_app.py:798 | an item priced 49.90 with 15.10 freight gets a `total_order_value` of 65.00 |
| FctOrders.JoinedOrdersHaveCustomer | streamlit_app.py:792-800 | an item joined only to existing orders gets a non-NULL `customer_id` in every fact row |
| FctOrders.FctOrdersTests | pages/1_Data_Engineering.py:224 | the declared `not_null` test on `fct_orders`: `order_id` and `product_id` are never NULL by construction, and `customer_id` is never NULL provided every item's order exists (also pages/3_Data_Engineering.py:207) |
| FctOrders.OrphanItemFailsTest | pages/1_Data_Engineering.py:224 | without that proviso the test fails: an item whose order is missing gets a fact row with a NULL `customer_id` |
| DimCustomers.OrderLines | streamlit_app.py:823 | one joined line per item of the order (or one NULL-item line), each carrying that order's customer, id and timestamp |
| DimCustomers.JoinOrderItems | streamlit_app.py:822-823 | `orders LEFT JOIN order_items` keeps every order: each line comes from an order and each order has a line |
| DimCustomers.GroupOf | streamlit_app.py:824 | a customer's group holds exactly the lines with that customer id, empty iff there is none |
| DimCustomers.GroupKeys | streamlit_app.py:824 | the grouping keys are the customer ids of the lines, each once |
| DimCustomers.OrderIdsEmpty | streamlit_app.py:820 | a group has no order ids iff it is empty |
| DimCustomers.CteWithId | streamlit_app.py:840 | the `customer_orders` rows a customer joins to are exactly those with its id |
| DimCustomers.GroupPrices | streamlit_app.py:821-824 | the non-NULL prices of a customer's group are exactly the prices of the items of that customer's orders |
| DimCustomers.GroupOrderIds | streamlit_app.py:820-824 | the order ids of a customer's group are exactly the ids of that customer's orders |
| DimCustomers.CustomerOrdersCte | streamlit_app.py:817-825 | `customer_orders` holds at most one row per customer id, and only rows with `total_orders` ≥ 1 (which customers get one, and its values: CustomerOrdersLookup) |
| DimCustomers.Aggregate | streamlit_app.py:819-821 | one `customer_orders` row: the group's customer id; `total_orders` is 0 only for an empty group; `total_revenue` COALESCEs to the total of the non-NULL prices; `avg_order_value` is NULL together with it; `first_order_date` and `last_order_date` are NULL together and ordered (also pages/3_Data_Engineering.py:133-137) |
| DimCustomers.GroupsRows | streamlit_app.py:817-825 | the grouped rows are the aggregates of the keys' groups, one per key, in key order (model order) |
| DimCustomers.GroupRows | streamlit_app.py:817-825 | grouping by the distinct keys gives no two rows for one customer id, and every row counts at least one order |
| DimCustomers.GroupsLookup | streamlit_app.py:817-825 | with distinct keys, the aggregate rows of a key are one row for that key's group, or none if the key is absent |
| DimCustomers.CustomerOrdersLookup | streamlit_app.py:817-825 | `customer_orders` has one row per customer with at least one order, aggregating that customer's group, and no row for any other id |
| DimCustomers.CustomerOrderTotals | streamlit_app.py:820-821 | for a customer with orders: `total_orders` counts distinct order ids, so several items of one order count once; `total_revenue` is NULL iff no item price exists, and otherwise sums the item prices, never freight (also tabs/engineering.py:157-158) |
| DimCustomers.CustomerAvgOrderValue | pages/1_Data_Engineering.py:166 | `avg_order_value` is the mean of the customer's non-NULL item prices, NULL when there are none (also pages/3_Data_Engineering.py:137) |
| DimCustomers.LinesDates | pages/3_Data_Engineering.py:134-135 | MIN and MAX of the timestamps of lines drawn from a customer's orders bound every timestamp of those orders, are taken from them, and first ≤ last |
| DimCustomers.GroupDates | pages/3_Data_Engineering.py:134-135 | the timestamps of a customer's group give that date range over the customer's orders |
| DimCustomers.CustomerOrderDates | pages/3_Data_Engineering.py:134-135 | `first_order_date` ≤ `last_order_date` for every customer; both are NULL together; every timestamp of the customer's orders lies between them |
| DimCustomers.CustomerType.Label | streamlit_app.py:834-838 | `customer_type` is one of "Returning", "One-time", "No Orders" |
| DimCustomers.Segment | streamlit_app.py:834-838 | Returning iff the count is > 1, One-time iff it is 1, No Orders iff it is NULL or 0 (also pages/3_Data_Engineering.py:155-159, tabs/engineering.py:171-175) |
| DimCustomers.SegmentAfterCoalesce | streamlit_app.py:832-838 | the CASE on the uncoalesced count gives the label it would give on the COALESCEd count |
| DimCustomers.LabelsDistinct | streamlit_app.py:834-838 | the three segments have three different labels |
| DimCustomers.FinalRow | streamlit_app.py:828-838 | the select list of `final`: the customer's own columns; the COALESCEd count and revenue of its `customer_orders` row, or 0 and 0 with "No Orders" when the joined row is NULL; the CASE label agrees with the COALESCEd count |
| DimCustomers.JoinCustomers | streamlit_app.py:839-840 | `customers LEFT JOIN customer_orders` yields at least as many rows as the customer master, whatever the aggregate rows (per-row: JoinCustomersKeepsRows; contents: DimCustomersGrain) |
| DimCustomers.JoinCustomersKeepsRows | streamlit_app.py:839-840 | every customer-master row has a joined row carrying its own id, unique id, city and state, even when two master rows share an id |
| DimCustomers.JoinCustomersKeys | streamlit_app.py:839-840 | the joined rows' customer ids are exactly the master's customer ids: no customer is dropped and none is added |
| DimCustomers.CteWithIdAtMostOne | streamlit_app.py:840 | with one aggregate row per customer id, a customer joins to at most one of them |
| DimCustomers.JoinCustomersCount | streamlit_app.py:839-840 | with one aggregate row per customer id, the join has exactly as many rows as the customer master |
| DimCustomers.BuildDimCustomers | streamlit_app.py:810-843 | `dim_customers` has exactly one row per customer-master row and exactly the master's customer ids (row contents: DimCustomersGrain) |
| DimCustomers.RowWithOrders | streamlit_app.py:827-838 | a customer with orders gets its distinct-order count, the total of its item prices and the segment of that count from its aggregate row |
| DimCustomers.RowWithoutOrders | streamlit_app.py:827-838 | a customer without orders gets 0 orders, 0 lifetime value and the "No Orders" segment from the NULL-extended row |
| DimCustomers.CustomerRow | streamlit_app.py:827-841 | each customer-master row yields one dimension row with its columns, its distinct-order count, its item-price total and the matching segment |
| DimCustomers.DimCustomersGrain | streamlit_app.py:839-840 | exactly one dimension row per customer-master row, in master order (model order); row i holds customer i's id, unique id, city and state, its distinct-order count, its item-price total (0 if none) and the segment of that count; orders of unknown customers add no row (also pages/1_Data_Engineering.py:174-177, 190-191) |
| DimCustomers.CustomerWithoutOrders | streamlit_app.py:832-838 | a customer without orders still has its row, with `total_orders` 0, `lifetime_value` 0 and "No Orders" (also pages/3_Data_Engineering.py:151-152, tabs/engineering.py:169-170) |
| DimCustomers.CustomerWithEmptyOrders | streamlit_app.py:832-833 | a customer whose orders have no items has `lifetime_value` 0 but `total_orders` ≥ 1 and is not "No Orders" |
| DimCustomers.FreightIgnored | streamlit_app.py:821 | changing only freight values (or anything but an item's order id and price) leaves the dimension unchanged |
| DimCustomers.DimCustomersTests | pages/1_Data_Engineering.py:225 | the declared tests hold: with unique customer-master ids, `customer_id` is unique in the dimension, and `customer_type` takes only accepted values |
| DimCustomers.TwoOrderCount | streamlit_app.py:820 | two orders of one customer with different ids count as two |
| DimCustomers.TwoOrderPrices | streamlit_app.py:821 | the items of those two orders total the two prices |
| DimCustomers.TwoOrderCustomer | streamlit_app.py:827-841 | a customer with two distinct orders, one priced item each, is "Returning" with the two prices as lifetime value |
| SellerTiers.Tier.Rank | streamlit_app.py:915 | each tier's position in the display list is below 4 |
| SellerTiers.Categorize | streamlit_app.py:916 | a label gets a tier iff it is in the category list; that tier's name is the label, at the tier's rank |
| SellerTiers.CategorizeName | streamlit_app.py:915-916 | every tier's name reads back as that tier |
| SellerTiers.CountOf | streamlit_app.py:914 | a label's seller count is the number of sellers carrying it (its multiplicity in the column), positive iff some seller does |
| SellerTiers.Labels | streamlit_app.py:914 | the group labels are the non-missing tier labels, each once |
| SellerTiers.TierSizes | streamlit_app.py:914 | `groupby(...).size()` gives one row per distinct non-missing label, holding the positive number of sellers with it |
| SellerTiers.Categorical | streamlit_app.py:916 | each grouped row keeps its count, and its label becomes its tier or missing |
| SellerTiers.SortKey | streamlit_app.py:917 | the sort key is the tier's rank, with 4 (last) exactly for a missing tier |
| SellerTiers.SortFromRank | streamlit_app.py:917 | the buckets of keys k..4 form a sequence ordered by key |
| SellerTiers.SortFromRankPermutes | streamlit_app.py:917 | concatenating the buckets loses, adds and changes no row |
| SellerTiers.SortByTierOrder | streamlit_app.py:917 | `sort_values` returns the rows ordered Platinum, Gold, Silver, Bronze, then missing; the result is a permutation of the input |
| SellerTiers.ChartBar | streamlit_app.py:914-916 | every grouped, categorised row has a positive count no larger than the number of sellers, and a row with a tier stands for a label some seller carries |
| SellerTiers.TierChart | streamlit_app.py:914-917 | the chart rows are in tier order, every bar has a positive height of at most the number of sellers, and every bar with a tier names a label some seller carries (which bars exist and their exact heights: TierCountKept; their placement: TierChartDetermined) |
| SellerTiers.SortedRowsAgree | streamlit_app.py:917 | two rank orderings of the same rows, where no two rows share a tier, agree at every position that has a tier |
| SellerTiers.RankedSortUnique | streamlit_app.py:917 | when every row has a distinct tier, there is only one rank ordering |
| SellerTiers.TierOrderIndependent | streamlit_app.py:914-917 | sorting the same rows given in any order places every ranked row identically |
| SellerTiers.CategoricalDistinct | streamlit_app.py:914-916 | after grouping and categorising, no two different rows share a tier |
| SellerTiers.CategoricalRow | streamlit_app.py:914-916 | a grouped row of tier t holds the number of sellers labelled with t's name, and that label occurs |
| SellerTiers.CategoricalHasTier | streamlit_app.py:914-916 | a tier whose label some seller carries has a grouped row with its count |
| SellerTiers.TierChartDetermined | streamlit_app.py:914-917 | any sort by the ordered categorical puts every ranked bar where the model's chart does |
| SellerTiers.TierCountKept | streamlit_app.py:914-917 | tier t has a bar iff some seller has t's label, and the bar's height is the number of such sellers |
| SellerTiers.PlatinumSellers | streamlit_app.py:471 | the Platinum KPI is the number of sellers labelled exactly "Platinum" (the label's multiplicity in the column), positive iff there is one |
| SellerTiers.PlatinumCardMatchesChart | streamlit_app.py:471 | with Platinum sellers, the chart's first bar is Platinum with the KPI's count; without any, no bar is Platinum |
| SellerTiers.FourTierOrder | streamlit_app.py:915-917 | one row per tier, in any input order (for instance alphabetical), comes out as Platinum, Gold, Silver, Bronze with the same counts |

## Left out

- Rendering and I/O are not modelled:
  - Streamlit pages, CSS, Plotly figures and `st.code` display;
  - database connections, caching and loading;
  - the ingest, export and exploration scripts.
- The staging models (`stg_*`) and the dbt project itself are not part of this model. Staging relations are taken as given sequences of rows.
- The `dim_sellers` and `dim_products` builders are not part of this model. The tier thresholds and the `seller_tier` rules are not part of it either. The tier labels are an input column.
- Money is exact centavos, not floating point; float rounding in sums and averages is not modelled.
- Key columns are modelled as never NULL.
  - A NULL `order_id` or `product_id` would match nothing in SQL.
  - The model would instead match it by equality.
- Row order of SQL results is not modelled. SQL promises none, and the builders emit rows in the join's natural order.
- The shorter `dim_customers` variants select fewer columns. The model's dimension row carries `customer_unique_id` as the longer variants do. The other variants are its projection.
- The intermediate `avg_order_value`, `first_order_date` and `last_order_date` columns appear in `customer_orders` only. They are not part of the dimension row, matching the source.
- SellerTiers.TierSizes: returns groups in order of last appearance. pandas `groupby` returns them sorted by label. SellerTiers.TierChartDetermined shows that the chart's ranked bars do not depend on that order.
- SellerTiers.SortByTierOrder: keeps rows with a missing tier in input order. pandas' default quicksort leaves their relative order unspecified; SellerTiers.SortedRowsAgree only fixes the ranked rows.
- SellerTiers: the three copies of the tier sort in the analytics pages are the same rule. They are covered by this one model:
  - tabs/analytics.py:77-80;
  - pages/1_Analytics.py:184-187;
  - pages/2_Analytics.py:186-189.
- The dashboard's KPI arithmetic over float columns and number formatting are not modelled. The Platinum count is the exception.
