/**
 * The silver transform: bronze records in, one row per sold or returned
 * article of every transaction that was not canceled, with its discounts
 * attributed and its net amount computed.
 */
module Silver {
  import opened Options
  import opened Relational
  import opened PosRecords

  // ---------------------------------------------------------------------
  // Project and filter.

  /** `select("after.*")`: a record without a payload reads as all NULLs. */
  function Project(r: RawRecord): Payload {
    r.after.GetOr(NullPayload)
  }

  /** A payload with a `LineItem` array and no `ControlType`. */
  predicate IsTransaction(p: Payload) {
    p.lineItem.Some? && p.controlType.None?
  }

  /** The payloads that describe transactions. */
  function Transactions(records: seq<RawRecord>): (txns: seq<Payload>)
    ensures forall p :: p in txns <==> IsTransaction(p) && exists r :: r in records && r.after == Some(p)
    ensures |txns| <= |records|
  {
    var payloads := Map(Project, records);
    assert forall p :: p in payloads && IsTransaction(p) ==> exists r :: r in records && r.after == Some(p);
    assert forall r :: r in records && r.after.Some? ==> Project(r) in payloads;
    Filter(IsTransaction, payloads)
  }

  /** A payload other than the all-NULL one is projected from exactly the
      records that carry it. */
  lemma {:induction false} ProjectMultiplicity(records: seq<RawRecord>, p: Payload)
    requires p != NullPayload
    ensures multiset(Map(Project, records))[p] == multiset(records)[RawRecord(Some(p))]
    decreases |records|
  {
    if |records| > 0 {
      var x, rest := records[0], records[1..];
      ProjectMultiplicity(rest, p);
      assert records == [x] + rest;
      MapAppend(Project, [x], rest);
      assert Map(Project, [x]) == [Project(x)];
      assert multiset(Map(Project, records)) == multiset([Project(x)]) + multiset(Map(Project, rest));
      if x.after == Some(p) {
        assert x == RawRecord(Some(p));
      } else if x.after.None? {
        assert Project(x) == NullPayload;
      } else {
        assert Project(x) == x.after.value != p;
      }
    }
  }

  /** Every record carrying a transaction payload contributes that payload
      once: duplicate documents stay duplicates. */
  lemma TransactionsMultiplicity(records: seq<RawRecord>)
    ensures forall p ::
      multiset(Transactions(records))[p] == (if IsTransaction(p) then multiset(records)[RawRecord(Some(p))] else 0)
  {
    FilterMultiplicity(IsTransaction, Map(Project, records));
    forall p | IsTransaction(p)
      ensures multiset(Map(Project, records))[p] == multiset(records)[RawRecord(Some(p))]
    {
      ProjectMultiplicity(records, p);
    }
  }

  // ---------------------------------------------------------------------
  // Explode.

  /** One line item together with the columns of its transaction. */
  datatype ExplodedRow = ExplodedRow(header: Header, item: LineItem)

  function ItemsOf(p: Payload): seq<LineItem> {
    p.lineItem.GetOr([])
  }

  /** The rows `explode("LineItem")` makes of one payload. */
  function LineItemRows(p: Payload): (rows: seq<ExplodedRow>)
    ensures |rows| == |ItemsOf(p)|
    ensures forall i :: 0 <= i < |rows| ==> rows[i] == ExplodedRow(HeaderOf(p), ItemsOf(p)[i])
    ensures forall e :: e in rows <==> e.header == HeaderOf(p) && e.item in ItemsOf(p)
  {
    var items := ItemsOf(p);
    var rows := Map((li: LineItem) => ExplodedRow(HeaderOf(p), li), items);
    assert forall li :: li in items ==> ExplodedRow(HeaderOf(p), li) in rows;
    rows
  }

  /** How many line items the payloads carry together. */
  function LineItemCount(txns: seq<Payload>): nat
    decreases |txns|
  {
    if |txns| == 0 then 0 else |ItemsOf(txns[0])| + LineItemCount(txns[1..])
  }

  /** `withColumn("item", explode("LineItem"))` over all payloads: one row per line item. */
  function Explode(txns: seq<Payload>): (rows: seq<ExplodedRow>)
    ensures |rows| == LineItemCount(txns)
    decreases |txns|
  {
    if |txns| == 0 then [] else LineItemRows(txns[0]) + Explode(txns[1..])
  }

  /** Exploding two runs of payloads explodes each in turn. */
  lemma {:induction false} ExplodeAppend(a: seq<Payload>, b: seq<Payload>)
    ensures Explode(a + b) == Explode(a) + Explode(b)
    decreases |a|
  {
    if |a| == 0 {
      assert a + b == b;
    } else {
      assert (a + b)[0] == a[0];
      assert (a + b)[1..] == a[1..] + b;
      ExplodeAppend(a[1..], b);
      ConcatAssoc(LineItemRows(a[0]), Explode(a[1..]), Explode(b));
    }
  }

  /** Each payload's line items come out as one block of rows of their own,
      between those of the payloads before and after it. */
  lemma ExplodeBlock(txns: seq<Payload>, i: nat)
    requires i < |txns|
    ensures Explode(txns) == Explode(txns[..i]) + (LineItemRows(txns[i]) + Explode(txns[i + 1..]))
  {
    assert txns == txns[..i] + txns[i..];
    ExplodeAppend(txns[..i], txns[i..]);
    assert txns[i..][0] == txns[i];
    assert txns[i..][1..] == txns[i + 1..];
  }

  /** An exploded row is a line item of one of the payloads, carrying that payload's columns. */
  lemma {:induction false} ExplodeMembers(txns: seq<Payload>)
    ensures forall e :: e in Explode(txns) <==>
      exists p :: p in txns && e.header == HeaderOf(p) && e.item in ItemsOf(p)
    decreases |txns|
  {
    if |txns| > 0 {
      ExplodeMembers(txns[1..]);
      assert txns == [txns[0]] + txns[1..];
      forall e ensures e in Explode(txns) <==>
        exists p :: p in txns && e.header == HeaderOf(p) && e.item in ItemsOf(p)
      {
        if e in Explode(txns) && e !in LineItemRows(txns[0]) {
          var p :| p in txns[1..] && e.header == HeaderOf(p) && e.item in ItemsOf(p);
          assert p in txns;
        }
      }
    }
  }

  /** Only records with a `LineItem` array and no `ControlType` produce rows,
      one per line item, each carrying its transaction's columns. */
  lemma ExplodedRecords(records: seq<RawRecord>)
    ensures forall e :: e in Explode(Transactions(records)) <==>
      exists r :: r in records && r.after.Some? && IsTransaction(r.after.value)
               && e.header == HeaderOf(r.after.value) && e.item in ItemsOf(r.after.value)
  {
    ExplodeMembers(Transactions(records));
  }

  // ---------------------------------------------------------------------
  // Cancellation.

  /** The TransactionIDs (NULL included) of rows carrying a cancellation. */
  function CanceledIds(rows: seq<ExplodedRow>): (ids: set<Option<string>>)
    ensures forall t :: t in ids <==> exists c :: c in rows && IsCancellation(c.item) && c.header.transactionId == t
  {
    set c | c in rows && IsCancellation(c.item) :: c.header.transactionId
  }

  /** The predicate `~TransactionID.isin(ids)` keeps a row on. */
  predicate Survives(e: ExplodedRow, ids: set<Option<string>>) {
    SqlNot(SqlIn(e.header.transactionId, ids)) == Some(true)
  }

  /** Drops every row of every transaction that has a cancellation line item.
      Under SQL NULL semantics a row with a NULL TransactionID never survives,
      and a cancellation with a NULL TransactionID leaves no row at all. */
  function RemoveCanceled(rows: seq<ExplodedRow>): (kept: seq<ExplodedRow>)
    ensures forall e :: e in kept <==>
      e in rows && e.header.transactionId.Some? &&
      forall c :: c in rows && IsCancellation(c.item) ==>
        c.header.transactionId.Some? && c.header.transactionId != e.header.transactionId
    ensures forall e :: e in kept ==> multiset(kept)[e] == multiset(rows)[e]
  {
    var ids := CanceledIds(rows);
    FilterMultiplicity(e => Survives(e, ids), rows);
    Filter(e => Survives(e, ids), rows)
  }

  /** The line items of all transactions that survive the cancellation filter. */
  function KeptRows(records: seq<RawRecord>): seq<ExplodedRow> {
    RemoveCanceled(Explode(Transactions(records)))
  }

  // ---------------------------------------------------------------------
  // Sales and returns.

  /** A sold or returned article, signed. */
  datatype SaleRow = SaleRow(
    header: Header,
    itemId: Option<string>,
    itemDescription: Option<string>,
    departmentId: Option<string>,
    grossAmount: Option<int>,
    quantity: Option<int>)

  /** The projection of a sale/return row: the identifying columns come from
      the SalesItem when it has them (`coalesce`), the signed amounts from
      the ReturnItem whenever there is one (`when`). */
  function ToSaleRow(e: ExplodedRow): SaleRow {
    var sale, ret := e.item.salesItem, e.item.returnItem;
    SaleRow(
      e.header,
      Coalesce(sale.Bind((i: Item) => i.itemId), ret.Bind((i: Item) => i.itemId)),
      Coalesce(sale.Bind((i: Item) => i.itemDescription), ret.Bind((i: Item) => i.itemDescription)),
      Coalesce(sale.Bind((i: Item) => i.departmentId), ret.Bind((i: Item) => i.departmentId)),
      if ret.Some? then Negate(ret.value.amount) else sale.Bind((i: Item) => i.amount),
      if ret.Some? then Negate(ret.value.quantity) else sale.Bind((i: Item) => i.quantity))
  }

  predicate IsSaleOrReturnRow(e: ExplodedRow) {
    IsSaleOrReturn(e.item)
  }

  predicate HasItemId(s: SaleRow) {
    s.itemId.Some?
  }

  /** Sale and return rows that have an item id; everything else is dropped. */
  function SaleRows(kept: seq<ExplodedRow>): (sales: seq<SaleRow>)
    ensures forall s :: s in sales <==>
      s.itemId.Some? && exists e :: e in kept && IsSaleOrReturn(e.item) && ToSaleRow(e) == s
    ensures |sales| <= |kept|
  {
    var candidates := Filter(IsSaleOrReturnRow, kept);
    var projected := Map(ToSaleRow, candidates);
    assert forall e :: e in candidates ==> ToSaleRow(e) in projected;
    Filter(HasItemId, projected)
  }

  // ---------------------------------------------------------------------
  // Discounts.

  /** One flattened `Discount.ItemList` entry. */
  datatype DiscountRow = DiscountRow(transactionId: Option<string>, itemId: Option<string>, discountAmount: Option<int>)

  /** The grouping and join key (TransactionID, item_id). */
  datatype DiscountKey = DiscountKey(transactionId: Option<string>, itemId: Option<string>)

  function KeyOfDiscount(d: DiscountRow): DiscountKey {
    DiscountKey(d.transactionId, d.itemId)
  }

  /** The `ItemList` entries of a line item's Discount, none when either is NULL. */
  function EntriesOf(li: LineItem): seq<DiscountEntry> {
    match li.discount
    case None => []
    case Some(d) => d.itemList.GetOr([])
  }

  /** The discount rows of one exploded line item. */
  function DiscountRowsOf(e: ExplodedRow): (rows: seq<DiscountRow>)
    ensures |rows| == |EntriesOf(e.item)|
    ensures forall i :: 0 <= i < |rows| ==>
      rows[i] == DiscountRow(e.header.transactionId, EntriesOf(e.item)[i].itemId, EntriesOf(e.item)[i].discountAmount)
    ensures forall d :: d in rows <==>
      exists en :: en in EntriesOf(e.item) && d == DiscountRow(e.header.transactionId, en.itemId, en.discountAmount)
  {
    var entries := EntriesOf(e.item);
    var rows := Map((en: DiscountEntry) => DiscountRow(e.header.transactionId, en.itemId, en.discountAmount), entries);
    assert forall en :: en in entries ==> DiscountRow(e.header.transactionId, en.itemId, en.discountAmount) in rows;
    rows
  }

  /** `explode("item.Discount.ItemList")` over the surviving rows. */
  function DiscountRows(kept: seq<ExplodedRow>): (rows: seq<DiscountRow>)
    decreases |kept|
  {
    if |kept| == 0 then [] else DiscountRowsOf(kept[0]) + DiscountRows(kept[1..])
  }

  /** Flattening two runs of line items flattens each in turn. */
  lemma {:induction false} DiscountRowsAppend(a: seq<ExplodedRow>, b: seq<ExplodedRow>)
    ensures DiscountRows(a + b) == DiscountRows(a) + DiscountRows(b)
    decreases |a|
  {
    if |a| == 0 {
      assert a + b == b;
    } else {
      assert (a + b)[0] == a[0];
      assert (a + b)[1..] == a[1..] + b;
      DiscountRowsAppend(a[1..], b);
      ConcatAssoc(DiscountRowsOf(a[0]), DiscountRows(a[1..]), DiscountRows(b));
    }
  }

  /** Every flattened discount row comes from an ItemList entry of a surviving
      line item, with that line item's TransactionID, and every entry yields one. */
  lemma {:induction false} DiscountRowsMembers(kept: seq<ExplodedRow>)
    ensures forall d :: d in DiscountRows(kept) <==>
      exists e :: e in kept && d in DiscountRowsOf(e)
    decreases |kept|
  {
    if |kept| > 0 {
      DiscountRowsMembers(kept[1..]);
      assert kept == [kept[0]] + kept[1..];
      assert DiscountRows(kept) == DiscountRowsOf(kept[0]) + DiscountRows(kept[1..]);
      forall d ensures d in DiscountRows(kept) <==> exists e :: e in kept && d in DiscountRowsOf(e) {
        if d in DiscountRows(kept) && d !in DiscountRowsOf(kept[0]) {
          var e :| e in kept[1..] && d in DiscountRowsOf(e);
          assert e in kept;
        }
      }
    }
  }

  /** The DiscountAmount of every discount row with key `k`. */
  function AmountsFor(rows: seq<DiscountRow>, k: DiscountKey): seq<Option<int>> {
    Map((d: DiscountRow) => d.discountAmount, Filter((d: DiscountRow) => KeyOfDiscount(d) == k, rows))
  }

  /** A key that no discount row carries is attributed nothing. */
  lemma NoDiscountWithoutKey(rows: seq<DiscountRow>, k: DiscountKey)
    requires forall d :: d in rows ==> KeyOfDiscount(d) != k
    ensures TotalDiscount(rows, k) == 0
  {
    FilterNone((d: DiscountRow) => KeyOfDiscount(d) == k, rows);
  }

  /** Reference definition: the discount attributed to key `k`, NULL amounts counting as 0. */
  function TotalDiscount(rows: seq<DiscountRow>, k: DiscountKey): int {
    SumPresent(AmountsFor(rows, k))
  }

  /** One aggregate row per (TransactionID, item_id) group. */
  datatype AggDiscount = AggDiscount(key: DiscountKey, totalDiscountAmount: Option<int>)

  function AggKey(a: AggDiscount): DiscountKey {
    a.key
  }

  /** The aggregate row of group `k`: SQL `sum` of its amounts. */
  function Group(rows: seq<DiscountRow>, k: DiscountKey): (a: AggDiscount)
    ensures a.key == k
    ensures a.totalDiscountAmount.GetOr(0) == TotalDiscount(rows, k)
  {
    AggDiscount(k, SqlSum(AmountsFor(rows, k)))
  }

  /** One aggregate row per key, in the order of `keys`. */
  function Groups(rows: seq<DiscountRow>, keys: seq<DiscountKey>): (agg: seq<AggDiscount>)
    ensures |agg| == |keys|
    ensures forall i :: 0 <= i < |keys| ==> agg[i].key == keys[i] && agg[i] == Group(rows, keys[i])
  {
    seq(|keys|, i requires 0 <= i < |keys| => Group(rows, keys[i]))
  }

  /** Every discount row's key is among the keys of the distinct projection. */
  lemma KeysCover(rows: seq<DiscountRow>, keys: seq<DiscountKey>)
    requires forall k :: k in keys <==> k in Map(KeyOfDiscount, rows)
    ensures forall d :: d in rows ==> exists i :: 0 <= i < |keys| && keys[i] == KeyOfDiscount(d)
  {
    var projected := Map(KeyOfDiscount, rows);
    forall d | d in rows ensures exists i :: 0 <= i < |keys| && keys[i] == KeyOfDiscount(d) {
      var j :| 0 <= j < |rows| && rows[j] == d;
      assert projected[j] == KeyOfDiscount(d);
      assert KeyOfDiscount(d) in keys;
    }
  }

  /** `groupBy("TransactionID", "item_id").sum("discount_amount")`: one row
      per key that occurs, and only for those. */
  function AggregateDiscounts(rows: seq<DiscountRow>): (agg: seq<AggDiscount>)
    ensures forall i, j :: 0 <= i < j < |agg| ==> agg[i].key != agg[j].key
    ensures forall d :: d in rows ==> exists i :: 0 <= i < |agg| && agg[i].key == KeyOfDiscount(d)
    ensures forall i :: 0 <= i < |agg| ==> agg[i].key in Map(KeyOfDiscount, rows)
    ensures forall i :: 0 <= i < |agg| ==> agg[i] == Group(rows, agg[i].key)
  {
    var keys := Distinct(Map(KeyOfDiscount, rows));
    KeysCover(rows, keys);
    Groups(rows, keys)
  }

  // ---------------------------------------------------------------------
  // Join and compute.

  /** A silver row (`TransactionLineItem`). */
  datatype SilverRow = SilverRow(
    transactionId: Option<string>,
    storeId: Option<string>,
    workstationId: Option<string>,
    operatorId: Option<string>,
    tenderDateTimestamp: Option<int>,
    itemId: Option<string>,
    itemDescription: Option<string>,
    departmentId: Option<string>,
    grossAmount: Option<int>,
    quantity: Option<int>,
    totalDiscountAmount: int,
    netAmount: Option<int>)

  function SaleKey(s: SaleRow): DiscountKey {
    DiscountKey(s.header.transactionId, s.itemId)
  }

  /** The join condition on (TransactionID, item_id): SQL equality, so a NULL never matches. */
  predicate DiscountOn(s: SaleRow, a: AggDiscount) {
    s.header.transactionId.Some? && s.itemId.Some? && a.key == SaleKey(s)
  }

  /** A sale row with its discount total and net amount filled in. */
  function WithTotal(s: SaleRow, total: int): (r: SilverRow)
    ensures r.netAmount == Subtract(r.grossAmount, r.totalDiscountAmount)
  {
    SilverRow(s.header.transactionId, s.header.storeId, s.header.workstationId, s.header.operatorId,
              s.header.tenderDateTimestamp, s.itemId, s.itemDescription, s.departmentId,
              s.grossAmount, s.quantity, total, Subtract(s.grossAmount, total))
  }

  /** The joined `total_discount_amount` after `na.fill(0)`: 0 for no match or a NULL sum. */
  function TotalOf(a: Option<AggDiscount>): int {
    a.Bind((x: AggDiscount) => x.totalDiscountAmount).GetOr(0)
  }

  /** The combine step of the left join. */
  function WithDiscount(s: SaleRow, a: Option<AggDiscount>): SilverRow {
    WithTotal(s, TotalOf(a))
  }

  /** A sale row joins at most one discount group: the one of its own key,
      whose total is every discount recorded for that key, 0 without one. */
  lemma DiscountOfSale(s: SaleRow, discounts: seq<DiscountRow>)
    requires s.header.transactionId.Some? && s.itemId.Some?
    ensures |Matches(s, AggregateDiscounts(discounts), DiscountOn)| <= 1
    ensures TotalOf(FirstOf(Matches(s, AggregateDiscounts(discounts), DiscountOn))) == TotalDiscount(discounts, SaleKey(s))
  {
    var agg := AggregateDiscounts(discounts);
    var k := SaleKey(s);
    assert forall i :: 0 <= i < |agg| ==> (DiscountOn(s, agg[i]) <==> AggKey(agg[i]) == k);
    UniqueKeyMatch(s, agg, DiscountOn, AggKey, k, true);
    var ms := Matches(s, agg, DiscountOn);
    if |ms| == 1 {
      var j :| 0 <= j < |agg| && agg[j] == ms[0];
      assert agg[j] == Group(discounts, k);
    } else {
      assert forall d :: d in discounts ==> KeyOfDiscount(d) != k;
      NoDiscountWithoutKey(discounts, k);
    }
  }

  /** The left join neither duplicates nor drops a sale row, and gives each
      one the sum of all discount amounts recorded for its key, 0 for none. */
  lemma DiscountJoin(sales: seq<SaleRow>, discounts: seq<DiscountRow>)
    requires forall s :: s in sales ==> s.header.transactionId.Some? && s.itemId.Some?
    ensures |LeftJoin(sales, AggregateDiscounts(discounts), DiscountOn, WithDiscount)| == |sales|
    ensures forall i :: 0 <= i < |sales| ==>
      LeftJoin(sales, AggregateDiscounts(discounts), DiscountOn, WithDiscount)[i]
        == WithTotal(sales[i], TotalDiscount(discounts, SaleKey(sales[i])))
  {
    var agg := AggregateDiscounts(discounts);
    forall i | 0 <= i < |sales|
      ensures |Matches(sales[i], agg, DiscountOn)| <= 1
      ensures WithDiscount(sales[i], FirstOf(Matches(sales[i], agg, DiscountOn)))
        == WithTotal(sales[i], TotalDiscount(discounts, SaleKey(sales[i])))
    {
      DiscountOfSale(sales[i], discounts);
      assert WithDiscount(sales[i], FirstOf(Matches(sales[i], agg, DiscountOn)))
        == WithTotal(sales[i], TotalOf(FirstOf(Matches(sales[i], agg, DiscountOn))));
    }
    LeftJoinOneToOne(sales, agg, DiscountOn, WithDiscount);
  }

  /** The silver layer: every surviving sale or return row with an item id,
      exactly once, with the total of its discounts and its net amount. */
  function Transform(records: seq<RawRecord>): (silver: seq<SilverRow>)
    ensures |silver| == |SaleRows(KeptRows(records))|
    ensures forall i :: 0 <= i < |silver| ==>
      silver[i] == WithTotal(SaleRows(KeptRows(records))[i],
                             TotalDiscount(DiscountRows(KeptRows(records)), SaleKey(SaleRows(KeptRows(records))[i])))
  {
    var kept := KeptRows(records);
    var sales := SaleRows(kept);
    var discounts := DiscountRows(kept);
    assert forall s :: s in sales ==> s.header.transactionId.Some? && s.itemId.Some?;
    DiscountJoin(sales, discounts);
    LeftJoin(sales, AggregateDiscounts(discounts), DiscountOn, WithDiscount)
  }

  // ---------------------------------------------------------------------
  // What the silver layer promises.

  /** What a silver row says about the line item it came from: it is a sale
      or a return with an item id, it carries its transaction's columns, its
      identifying columns are the SalesItem's when present and the
      ReturnItem's otherwise, and a return's amount and quantity are negated. */
  ghost predicate DerivedFrom(r: SilverRow, e: ExplodedRow) {
    var sale, ret := e.item.salesItem, e.item.returnItem;
    && IsSaleOrReturn(e.item)
    && Header(r.transactionId, r.storeId, r.workstationId, r.operatorId, r.tenderDateTimestamp) == e.header
    && r.itemId.Some?
    && r.itemId == Coalesce(sale.Bind((i: Item) => i.itemId), ret.Bind((i: Item) => i.itemId))
    && r.itemDescription == Coalesce(sale.Bind((i: Item) => i.itemDescription), ret.Bind((i: Item) => i.itemDescription))
    && r.departmentId == Coalesce(sale.Bind((i: Item) => i.departmentId), ret.Bind((i: Item) => i.departmentId))
    && (ret.Some? ==> r.grossAmount == Negate(ret.value.amount) && r.quantity == Negate(ret.value.quantity))
    && (ret.None? ==> r.grossAmount == sale.value.amount && r.quantity == sale.value.quantity)
  }

  /** A line item that becomes a silver row. */
  predicate YieldsSale(e: ExplodedRow) {
    IsSaleOrReturn(e.item) && ToSaleRow(e).itemId.Some?
  }

  /** The sale rows are the projections of exactly the kept line items that
      yield a sale, each once and in the order of the line items. */
  lemma SaleRowsExactly(kept: seq<ExplodedRow>)
    ensures SaleRows(kept) == Map(ToSaleRow, Filter(YieldsSale, kept))
    ensures multiset(SaleRows(kept)) == multiset(Map(ToSaleRow, Filter(YieldsSale, kept)))
  {
    SelectProjectSelect(IsSaleOrReturnRow, ToSaleRow, HasItemId, YieldsSale, kept);
  }

  /** A sale row completed with any discount total still describes its line item. */
  lemma CompletedRowDerived(e: ExplodedRow, total: int)
    requires YieldsSale(e)
    ensures DerivedFrom(WithTotal(ToSaleRow(e), total), e)
  {
  }

  /** Silver holds exactly one row per sale or return line item with an item id
      of a transaction that survived the cancellation filter. */
  lemma SilverRowCount(records: seq<RawRecord>)
    ensures |Transform(records)| == |Filter(YieldsSale, KeptRows(records))|
  {
    SaleRowsExactly(KeptRows(records));
  }

  /** Every silver row stems from a surviving sale or return line item of a
      transaction record, and describes it (ids, header, signed amounts). */
  lemma SilverRowOrigin(records: seq<RawRecord>)
    ensures forall r :: r in Transform(records) ==>
      exists e :: e in KeptRows(records) && DerivedFrom(r, e)
  {
    var kept := KeptRows(records);
    var sales := SaleRows(kept);
    var silver := Transform(records);
    forall r | r in silver ensures exists e :: e in kept && DerivedFrom(r, e) {
      var i :| 0 <= i < |silver| && silver[i] == r;
      assert sales[i] in sales;
      var e :| e in kept && IsSaleOrReturn(e.item) && ToSaleRow(e) == sales[i];
      CompletedRowDerived(e, TotalDiscount(DiscountRows(kept), SaleKey(sales[i])));
    }
  }

  /** No silver row belongs to a transaction with a cancellation line item,
      and none has a NULL TransactionID. */
  lemma SilverExcludesCanceled(records: seq<RawRecord>)
    ensures forall r, c :: r in Transform(records) && c in Explode(Transactions(records)) && IsCancellation(c.item) ==>
      r.transactionId.Some? && r.transactionId != c.header.transactionId
    ensures forall r :: r in Transform(records) ==> r.transactionId.Some?
  {
    SilverRowOrigin(records);
    forall r | r in Transform(records) ensures r.transactionId.Some? {
      var e :| e in KeptRows(records) && DerivedFrom(r, e);
    }
  }

  /** A cancellation whose TransactionID is NULL puts NULL into the `isin`
      list, and `NOT (id IN (..., NULL))` is never true: silver is empty. */
  lemma NullCanceledIdEmptiesSilver(records: seq<RawRecord>)
    requires exists c :: c in Explode(Transactions(records)) && IsCancellation(c.item) && c.header.transactionId.None?
    ensures Transform(records) == []
  {
    var rows := Explode(Transactions(records));
    var ids := CanceledIds(rows);
    FilterNone(e => Survives(e, ids), rows);
    assert SaleRows([]) == [];
  }

  /** A completed sale row keeps its join key and carries the given total. */
  lemma CompletedRowAmounts(s: SaleRow, total: int)
    ensures var r := WithTotal(s, total);
      && r.totalDiscountAmount == total
      && DiscountKey(r.transactionId, r.itemId) == SaleKey(s)
      && r.netAmount == Subtract(r.grossAmount, r.totalDiscountAmount)
  {
  }

  /** Every silver row's discount total is the sum of the DiscountAmounts of all
      ItemList entries of its transaction that name its item (0 when there are
      none), and its net amount is its gross amount less that total. */
  lemma SilverAmounts(records: seq<RawRecord>)
    ensures forall r :: r in Transform(records) ==>
      && r.totalDiscountAmount == TotalDiscount(DiscountRows(KeptRows(records)), DiscountKey(r.transactionId, r.itemId))
      && r.netAmount == Subtract(r.grossAmount, r.totalDiscountAmount)
  {
    var silver := Transform(records);
    forall r | r in silver
      ensures r.totalDiscountAmount == TotalDiscount(DiscountRows(KeptRows(records)), DiscountKey(r.transactionId, r.itemId))
      ensures r.netAmount == Subtract(r.grossAmount, r.totalDiscountAmount)
    {
      var i :| 0 <= i < |silver| && silver[i] == r;
      var sales := SaleRows(KeptRows(records));
      CompletedRowAmounts(sales[i], TotalDiscount(DiscountRows(KeptRows(records)), SaleKey(sales[i])));
    }
  }
}
