# Point-of-sale medallion pipeline: silver and gold transforms

This project models, in Dafny, the relational core of a point-of-sale data
pipeline, `src/main.py`. Raw transaction documents become a silver table
with one row per sold or returned article. That row is enriched with its
discount total and its net amount. The silver table then becomes a gold star
schema: three dimensions (products, stores, calendar dates) with run-scoped
surrogate keys, and a fact table referencing them.

Every dataframe step is read as a pure function on a finite sequence of
rows, following the script, which is a chain of `select`, `filter`,
`explode`, `groupBy().sum`, `join` and `withColumn`:

- `options.dfy`: nullable column values (`Option`) and `coalesce`.
- `relational.dfy`: the relational operators the script uses.
  - `filter`, projection, `distinct` and SQL `sum`.
  - The three-valued `isin`/`NOT`.
  - A left equi-join whose NULL keys never match.
  - Dimensions whose surrogate key is the row's position in the deduplicated projection.
- `records.dfy`: the raw document schema. Every field is nullable. A line item
  has optional `SalesItem`, `ReturnItem`, `Discount` and `TransactionInfo`
  sub-objects rather than being a tagged union.
- `silver.dfy`: the silver transform (`Silver.Transform`) and what it
  promises.
- `gold.dfy`: the dimensions and fact table (`Gold.Dimensionalize`) and what
  they promise.
- `scenarios.dfy`: concrete inputs worked through the model:
  - a return line item;
  - a canceled transaction next to a kept one.

NULL follows SQL semantics throughout, and this decides several edge cases:

- `~TransactionID.isin(ids)` is never true for a NULL TransactionID. So such
  rows never reach silver.
- If a cancellation line item has a NULL TransactionID, the id list contains
  NULL. Then the filter keeps nothing at all (`Silver.NullCanceledIdEmptiesSilver`).
- The joins on `(TransactionID, item_id)` and on the dimension natural keys use
  plain equality. So a NULL key component never matches: the fact row gets a
  NULL surrogate key even though the dimension has a row for that (NULL)
  natural key (`Gold.StarSchemaFact`).
- `sum` skips NULL amounts and is NULL for a group with no amount. The
  subsequent `na.fill(0)` makes the silver discount total the sum of the
  present amounts (`Relational.SqlSum`).

A line item carrying both a `SalesItem` and a `ReturnItem` is modelled as the
code treats it:

- `coalesce` takes the ids, description and department from the `SalesItem`;
- `when` takes the amount and quantity from the `ReturnItem`, negated.

## Model

| member | source | states |
|---|---|---|
| Options.Coalesce | src/main.py:93-95 | the first non-NULL of the two values; NULL only when both are NULL |
| Relational.Filter | src/main.py:75-76 | a row is in the result exactly when it is in the input and satisfies the predicate; never longer than the input |
| Relational.FilterMultiplicity | src/main.py:86 | a row satisfying the predicate keeps its exact multiplicity, any other row disappears |
| Relational.SelectProjectSelect | src/main.py:89-98 | filtering, projecting and filtering the projection again gives the same rows, in the same order and with the same multiplicities, as one filter on the combined condition followed by the projection |
| Relational.Distinct | src/main.py:129-130 | no duplicates, and exactly the values of the input (NULL being one value) |
| Relational.SqlIn | src/main.py:86 | `x IN ids` is true exactly for a present x in the list, false exactly for a present x outside a NULL-free list, otherwise unknown |
| Relational.SqlNot | src/main.py:86 | NOT is true exactly for false, and unknown stays unknown |
| Relational.Negate | src/main.py:96-97 | `x * -1` is NULL exactly when x is, and otherwise sums with x to 0 |
| Relational.Subtract | src/main.py:116 | `x - y` is NULL exactly when x is, and otherwise adds y back to x |
| Relational.SqlSum | src/main.py:110-111 | the sum is NULL exactly when every value is NULL; filled with 0 it equals the sum of the present values |
| Relational.LeftJoin | src/main.py:114 | a left join never has fewer output rows than left rows |
| Relational.JoinRowMembers | src/main.py:114 | the output rows of one left row are that row combined with each of its matching right rows, or with NULL when it has none |
| Relational.LeftJoinMembers | src/main.py:114 | every output row of a left join is a left row combined with one of its matching right rows, or with NULL when that row matches none; every left row combined with each of its matches, and every unmatched left row combined with NULL, is an output row |
| Relational.LeftJoinOneToOne | src/main.py:114 | when each left row matches at most one right row, the join has one row per left row, in place, combined with its match or with NULL |
| Relational.UniqueKeyMatch | src/main.py:143-145 | on a right side with distinct keys, an equi-join row matches at most one row, and matches one exactly when its key is joinable and present |
| Relational.Dimension | src/main.py:129-139 | natural keys pairwise distinct, surrogate keys pairwise distinct, and exactly the keys of the projection present |
| Relational.SurrogateKeyOf | src/main.py:142-145 | a key is found exactly when some dimension row holds it, and the key returned is that row's surrogate key |
| Relational.SurrogateKeyUnique | src/main.py:142-145 | in a dimension with distinct natural keys, looking up a row's natural key yields that row's surrogate key |
| Relational.DimensionJoin | src/main.py:142-145 | joining rows to a dimension keeps one row per input row, carrying the looked-up surrogate key when the key is joinable and NULL otherwise |
| Silver.Transactions | src/main.py:74-76 | a payload is kept exactly when some record carries it and it has a `LineItem` array and no `ControlType` |
| Silver.TransactionsMultiplicity | src/main.py:74-76 | a transaction payload is kept exactly as often as records carry it, so duplicate documents stay duplicates; any other payload is dropped |
| Silver.ProjectMultiplicity | src/main.py:74 | a payload other than the all-NULL one is selected exactly as often as records carry it |
| Silver.LineItemRows | src/main.py:78 | one row per line item of the payload, row i being the i-th line item with the payload's transaction columns |
| Silver.Explode | src/main.py:78 | the exploded table has as many rows as the payloads have line items together |
| Silver.ExplodeAppend | src/main.py:78 | exploding two runs of payloads gives the rows of the first followed by those of the second |
| Silver.ExplodeBlock | src/main.py:78 | each payload contributes its own line-item rows as one block, between the rows of the payloads before and after it |
| Silver.ExplodedRecords | src/main.py:74-78 | an exploded row is exactly a line item of a transaction record together with that record's TransactionID, StoreID, WorkstationID, OperatorID and TenderDateTimestamp |
| Silver.CanceledIds | src/main.py:81-85 | the id list holds exactly the TransactionIDs, NULL included, of rows whose line item is marked "Canceled" |
| Silver.RemoveCanceled | src/main.py:86 | a row survives exactly when its TransactionID is present and differs from the present TransactionID of every cancellation row, and a survivor keeps its multiplicity |
| Silver.SaleRows | src/main.py:89-98 | a sale row is exactly the projection of a surviving SalesItem or ReturnItem line item, and it has a non-NULL item id |
| Silver.SaleRowsExactly | src/main.py:89-98 | the sale rows are the projections of exactly the kept line items that are sales or returns with an item id: each such line item once, in order, and no other |
| Silver.DiscountRowsOf | src/main.py:101-108 | one discount row per `ItemList` entry, row i carrying the i-th entry's item id and amount and the line item's TransactionID |
| Silver.DiscountRowsAppend | src/main.py:101-103 | flattening two runs of line items gives the discount rows of the first followed by those of the second |
| Silver.DiscountRowsMembers | src/main.py:101-108 | the flattened discount rows are exactly the entries of the surviving line items' discounts |
| Silver.NoDiscountWithoutKey | src/main.py:110-115 | a (TransactionID, item_id) that no discount row carries is attributed 0 |
| Silver.Group | src/main.py:110-111 | a group's aggregate carries its key, and its total filled with 0 is the sum of the group's present amounts |
| Silver.AggregateDiscounts | src/main.py:110-111 | one aggregate per key that occurs and none for other keys, keys distinct, each aggregate being the SQL sum of its group |
| Silver.DiscountOfSale | src/main.py:114-115 | at most one aggregate joins a sale row, and the total it gives after `na.fill(0)` is the sum of that sale's discount amounts |
| Silver.DiscountJoin | src/main.py:114-116 | the discount join keeps every sale row exactly once, in place, completed with its discount total |
| Silver.WithTotal | src/main.py:115-116 | net amount is gross amount minus discount total, and NULL when the gross amount is NULL |
| Silver.Transform | src/main.py:74-116 | silver has one row per sale row, in place, each with the discount total of its (TransactionID, item_id) and the net amount derived from it |
| Silver.SilverRowCount | src/main.py:89-116 | silver holds as many rows as there are surviving sale or return line items with an item id, counted with multiplicity |
| Silver.SilverRowOrigin | src/main.py:89-98 | every silver row comes from a surviving SalesItem or ReturnItem line item. It has that item's transaction columns and a non-NULL item id. Its ids come from the SalesItem first, then the ReturnItem. Its amount and quantity are the ReturnItem's negated, or else the SalesItem's unchanged |
| Silver.SilverExcludesCanceled | src/main.py:81-86 | no silver row has a NULL TransactionID or the TransactionID of any transaction with a cancellation line item |
| Silver.NullCanceledIdEmptiesSilver | src/main.py:85-86 | a cancellation line item with a NULL TransactionID leaves silver empty |
| Silver.SilverAmounts | src/main.py:101-116 | every silver row's discount total is the sum of its transaction's discount entries for its item (0 if none), and its net amount is gross minus that total |
| Gold.TruncDiv | src/main.py:125 | the quotient is rounded toward zero |
| Gold.EpochDay | src/main.py:124-126 | the date is NULL exactly when the timestamp is; otherwise it is the day whose 86400 seconds contain the timestamp's whole seconds |
| Gold.ProductStageRows | src/main.py:143 | the product join keeps one row per silver row, carrying the product dimension key when item id, description and department are all non-NULL, and NULL otherwise |
| Gold.StoreStageRows | src/main.py:144 | the store join keeps one row per silver row and adds the store dimension key, NULL for a NULL StoreID |
| Gold.DateStageRows | src/main.py:145 | the date join keeps one row per silver row and adds the date dimension key, NULL for a NULL date |
| Gold.FactOnePerSilverRow | src/main.py:142-156 | the fact table has exactly one row per silver row, in place, with the looked-up surrogate keys and the measures copied unchanged |
| Gold.GoldDimensions | src/main.py:129-139 | each dimension holds exactly the distinct natural keys of the silver rows, NULL included, with pairwise distinct natural and surrogate keys |
| Gold.KeyForResolves | src/main.py:142-145 | a natural key held by the dimension resolves to the surrogate key of its dimension row when joinable, and to NULL otherwise |
| Gold.DimensionalizeIsStarSchema | src/main.py:124-156 | the gold layer is a star schema over silver: every silver row's keys have dimension rows, and there is one expected fact row per silver row |
| Gold.StarSchemaFact | src/main.py:142-156 | a fact row references the dimension rows of its silver row's product, store and date, or NULL where a key component is NULL. It carries transaction id, timestamp, quantity, gross amount, discount total and net amount unchanged |
| Gold.CanceledTransactionsHaveNoFacts | src/main.py:81-86 | no fact row has a NULL transaction id or the transaction id of a transaction that carries a cancellation line item |
| Scenarios.ReturnIsNegated | src/main.py:89-116 | a transaction whose only line item is a ReturnItem with Amount 10 and Quantity 2 gives one silver row: item "R", gross amount -10, quantity -2, discount total 0 and net amount -10 |
| Scenarios.CanceledTransactionEndToEnd | src/main.py:74-156 | a kept sale of "A" for 100 with a discount of 10, next to a canceled transaction, gives one silver row and one fact row: TX1, "A", gross 100, quantity 1, discount 10, net 90 |

## Left out

- Environment configuration, credentials and session set-up (src/main.py:21-59): bootstrapping with nothing to prove.
- Bronze ingestion (src/main.py:63-66): JSON parsing, the ingestion timestamp and source file name columns, and the parquet write are I/O. The model starts from parsed records holding only the fields the transforms read.
- All parquet reads and writes and `spark.stop()` (src/main.py:66, 71, 118, 123, 159-165): each layer's input is the previous function's output.
- The driver-side `collect()` of canceled ids (src/main.py:85) is distributed-execution mechanics. It is modelled as a set of ids.
- Row order: Spark leaves it unspecified. Each sequence fixes one order, and the properties are stated over membership, multiplicity and row-for-row correspondence.
- Surrogate key values: `monotonically_increasing_id` depends on partitioning. A dimension row's key is its position in the deduplicated projection, so only injectivity within a run is modelled.
- Gold.EpochDay: the date conversion follows a UTC session time zone; other session time zones are not modelled.
- Amounts and quantities are unbounded integers. Spark infers an integral JSON number as a 64-bit `bigint` and a fractional one as a double. In Spark's default non-ANSI mode, `* -1` (src/main.py:96-97), `sum` (110-111) and `-` (116) on a `bigint` wrap around at 2^63, and doubles are rounded. Neither the wrap-around nor the rounding is modelled.
- Relational.SqlIn: for a NULL TransactionID against an empty id list, Spark before 4.0 evaluates `IN ()` to unknown, and this is what is modelled. Spark 4.0 evaluates it to false, after which `NOT` would keep such rows when no transaction is canceled.
- The "exactly one of SalesItem, ReturnItem, Discount, TransactionInfo" shape of a line item is not enforced, because the code does not enforce it. The model takes any combination, as the code does.
- A line item whose `Discount` is present but whose `ItemList` is NULL or empty contributes no discount row, since `explode` drops it. Negative discount amounts are summed like any other.
- The schema Spark infers from the raw documents is taken to contain every field the transforms read: `ControlType` (src/main.py:76), `TransactionInfo.InfoType` (82), `ReturnItem` (90, 93-97), `Discount.ItemList` (103) and `DiscountAmount` (107). When no document carries one of them, the field is missing from the inferred schema and the job stops with an analysis error. The model instead reads such a field as NULL in every row.
- Gold.StarSchemaFact: the model computes each dimension once and uses that result both in the fact table's joins and as the written dimension table. The script caches nothing, so writing the fact table (src/main.py:159) computes the dimensions again inside its own plan (143-145), and each dimension write (160-162) computes its dimension once more. `monotonically_increasing_id` (131, 135, 139) may hand out different keys in each computation. So the script does not guarantee that a fact row's surrogate keys point to the same natural keys in the written dimension tables. The model's star-schema guarantee (also Gold.DimensionalizeIsStarSchema) holds for the dimensions as computed within the fact table's own plan.
