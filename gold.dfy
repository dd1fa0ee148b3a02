/**
 * The gold dimensionalizer: a star schema over the silver rows. Three
 * dimensions (products, stores, dates) hold the distinct natural keys with a
 * surrogate key each, and the fact table holds one row per silver row with
 * the surrogate keys of its natural keys and its measures.
 */
module Gold {
  import opened Options
  import opened Relational
  import PosRecords
  import Silver

  // ---------------------------------------------------------------------
  // Calendar date.

  const MillisPerSecond := 1000
  const SecondsPerDay := 86400

  /** Integer division rounding toward zero, as a cast of a quotient to a whole number does. */
  function TruncDiv(a: int, b: nat): (q: int)
    requires b > 0
    ensures a >= 0 ==> q * b <= a < q * b + b
    ensures a < 0 ==> q * b - b < a <= q * b
  {
    if a >= 0 then a / b else -((-a) / b)
  }

  /** `to_date(from_unixtime(ts / 1000))` in UTC: whole seconds since the
      epoch (truncated), then the number of the calendar day they fall on. */
  function EpochDay(ts: Option<int>): (day: Option<int>)
    ensures day.Some? <==> ts.Some?
    ensures ts.Some? ==> var secs := TruncDiv(ts.value, MillisPerSecond);
      day.value * SecondsPerDay <= secs < day.value * SecondsPerDay + SecondsPerDay
  {
    match ts
    case None => None
    case Some(ms) => Some(TruncDiv(ms, MillisPerSecond) / SecondsPerDay)
  }

  /** A silver row with its derived `transaction_date`. */
  datatype SourceRow = SourceRow(row: Silver.SilverRow, transactionDate: Option<int>)

  function WithDate(r: Silver.SilverRow): SourceRow {
    SourceRow(r, DateOfRow(r))
  }

  // ---------------------------------------------------------------------
  // Natural keys.

  /** The natural key of `dim_products`. */
  datatype ProductKey = ProductKey(itemId: Option<string>, itemDescription: Option<string>, departmentId: Option<string>)

  /** The natural keys of a silver row. */
  function ProductOfRow(r: Silver.SilverRow): ProductKey {
    ProductKey(r.itemId, r.itemDescription, r.departmentId)
  }

  function StoreOfRow(r: Silver.SilverRow): Option<string> {
    r.storeId
  }

  /** The date a silver row falls on. */
  function DateOfRow(r: Silver.SilverRow): Option<int> {
    EpochDay(r.tenderDateTimestamp)
  }

  /** The same keys read off a row of the gold source; the date is read from
      its `transaction_date` column, which `WithDate` filled with `DateOfRow`. */
  function ProductOf(g: SourceRow): ProductKey {
    ProductOfRow(g.row)
  }

  function StoreOf(g: SourceRow): Option<string> {
    StoreOfRow(g.row)
  }

  function DateOf(g: SourceRow): Option<int> {
    g.transactionDate
  }

  /** An equi-join on several columns matches only when none of them is NULL. */
  predicate ProductJoinable(k: ProductKey) {
    k.itemId.Some? && k.itemDescription.Some? && k.departmentId.Some?
  }

  /** The same for a single-column key: it matches only when it is not NULL. */
  predicate Present<T>(k: Option<T>) {
    k.Some?
  }

  // ---------------------------------------------------------------------
  // Dimensions.

  function DimProducts(src: seq<SourceRow>): seq<DimRow<ProductKey>> {
    Dimension(Map(ProductOf, src))
  }

  function DimStores(src: seq<SourceRow>): seq<DimRow<Option<string>>> {
    Dimension(Map(StoreOf, src))
  }

  function DimDate(src: seq<SourceRow>): seq<DimRow<Option<int>>> {
    Dimension(Map(DateOf, src))
  }

  // ---------------------------------------------------------------------
  // Fact table.

  /** A source row while the three dimension keys are being joined on. */
  datatype Staged = Staged(source: SourceRow, productKey: Option<nat>, storeKey: Option<nat>, dateKey: Option<nat>)

  /** `join(dim_products, on=[item_id, item_description, department_id])`. */
  predicate ProductOn(g: SourceRow, d: DimRow<ProductKey>) {
    ProductJoinable(ProductOf(g)) && d.naturalKey == ProductOf(g)
  }

  function WithProduct(g: SourceRow, d: Option<DimRow<ProductKey>>): Staged {
    Staged(g, SurrogateOf(d), None, None)
  }

  function StagedStore(s: Staged): Option<string> {
    StoreOf(s.source)
  }

  /** `join(dim_stores, on="StoreID")`. */
  predicate StoreOn(s: Staged, d: DimRow<Option<string>>) {
    Present(StagedStore(s)) && d.naturalKey == StagedStore(s)
  }

  function WithStore(s: Staged, d: Option<DimRow<Option<string>>>): Staged {
    s.(storeKey := SurrogateOf(d))
  }

  function StagedDate(s: Staged): Option<int> {
    DateOf(s.source)
  }

  /** `join(dim_date, on="transaction_date")`. */
  predicate DateOn(s: Staged, d: DimRow<Option<int>>) {
    Present(StagedDate(s)) && d.naturalKey == StagedDate(s)
  }

  function WithDateKey(s: Staged, d: Option<DimRow<Option<int>>>): Staged {
    s.(dateKey := SurrogateOf(d))
  }

  /** A row of `fact_transaction_items`. */
  datatype FactRow = FactRow(
    productKey: Option<nat>,
    storeKey: Option<nat>,
    dateKey: Option<nat>,
    transactionId: Option<string>,
    transactionTimestamp: Option<int>,
    quantity: Option<int>,
    grossAmount: Option<int>,
    totalDiscountAmount: int,
    netAmount: Option<int>)

  /** The final `select` of the fact table. */
  function ToFact(s: Staged): FactRow {
    var r := s.source.row;
    FactRow(s.productKey, s.storeKey, s.dateKey, r.transactionId, r.tenderDateTimestamp,
            r.quantity, r.grossAmount, r.totalDiscountAmount, r.netAmount)
  }

  /** The gold layer: the fact table and its three dimensions. */
  datatype GoldSnapshot = GoldSnapshot(
    fact: seq<FactRow>,
    dimProducts: seq<DimRow<ProductKey>>,
    dimStores: seq<DimRow<Option<string>>>,
    dimDate: seq<DimRow<Option<int>>>)

  function ProductStage(src: seq<SourceRow>): seq<Staged> {
    LeftJoin(src, DimProducts(src), ProductOn, WithProduct)
  }

  function StoreStage(src: seq<SourceRow>): seq<Staged> {
    LeftJoin(ProductStage(src), DimStores(src), StoreOn, WithStore)
  }

  function DateStage(src: seq<SourceRow>): seq<Staged> {
    LeftJoin(StoreStage(src), DimDate(src), DateOn, WithDateKey)
  }

  function Dimensionalize(silver: seq<Silver.SilverRow>): GoldSnapshot {
    var src := Map(WithDate, silver);
    GoldSnapshot(Map(ToFact, DateStage(src)), DimProducts(src), DimStores(src), DimDate(src))
  }

  // ---------------------------------------------------------------------
  // What the fact table holds.

  /** Reference lookup of a fact's surrogate key: the key of the dimension row
      holding the natural key, provided the equi-join can compare it at all. */
  function KeyFor<K(==)>(dim: seq<DimRow<K>>, k: K, joinable: bool): Option<nat> {
    if joinable then SurrogateKeyOf(dim, k) else None
  }

  /** The fact row a silver row should give: its surrogate keys looked up in
      the dimensions, its measures copied unchanged. */
  function ExpectedFact(gold: GoldSnapshot, r: Silver.SilverRow): FactRow {
    var product, store, date := ProductOfRow(r), r.storeId, EpochDay(r.tenderDateTimestamp);
    FactRow(
      KeyFor(gold.dimProducts, product, ProductJoinable(product)),
      KeyFor(gold.dimStores, store, store.Some?),
      KeyFor(gold.dimDate, date, date.Some?),
      r.transactionId, r.tenderDateTimestamp, r.quantity, r.grossAmount, r.totalDiscountAmount, r.netAmount)
  }

  lemma ProductStageRows(src: seq<SourceRow>)
    ensures |ProductStage(src)| == |src|
    ensures forall i :: 0 <= i < |src| ==>
      ProductStage(src)[i] == Staged(src[i], KeyFor(DimProducts(src), ProductOf(src[i]), ProductJoinable(ProductOf(src[i]))), None, None)
  {
    DimensionJoin(src, DimProducts(src), ProductOf, ProductJoinable, ProductOn, WithProduct);
  }

  lemma StoreStageRows(src: seq<SourceRow>)
    ensures |StoreStage(src)| == |src|
    ensures forall i :: 0 <= i < |src| ==>
      StoreStage(src)[i] == ProductStage(src)[i].(storeKey := KeyFor(DimStores(src), StoreOf(src[i]), StoreOf(src[i]).Some?))
  {
    ProductStageRows(src);
    DimensionJoin(ProductStage(src), DimStores(src), StagedStore, Present, StoreOn, WithStore);
  }

  lemma DateStageRows(src: seq<SourceRow>)
    ensures |DateStage(src)| == |src|
    ensures forall i :: 0 <= i < |src| ==>
      DateStage(src)[i] == StoreStage(src)[i].(dateKey := KeyFor(DimDate(src), DateOf(src[i]), DateOf(src[i]).Some?))
  {
    StoreStageRows(src);
    ProductStageRows(src);
    DimensionJoin(StoreStage(src), DimDate(src), StagedDate, Present, DateOn, WithDateKey);
  }

  /** The three dimension joins neither drop nor repeat a row: the fact table
      has exactly one row per silver row, in place, holding the surrogate keys
      of that row's natural keys and its measures unchanged. */
  lemma FactOnePerSilverRow(silver: seq<Silver.SilverRow>)
    ensures |Dimensionalize(silver).fact| == |silver|
    ensures forall i :: 0 <= i < |silver| ==>
      Dimensionalize(silver).fact[i] == ExpectedFact(Dimensionalize(silver), silver[i])
  {
    var src := Map(WithDate, silver);
    DateStageRows(src);
    StoreStageRows(src);
    ProductStageRows(src);
  }

  // ---------------------------------------------------------------------
  // What the dimensions hold.

  /** Every row's natural key has a row in the dimension. */
  ghost predicate Covers<K>(dim: seq<DimRow<K>>, rows: seq<Silver.SilverRow>, keyOf: Silver.SilverRow -> K) {
    forall r :: r in rows ==> exists i :: 0 <= i < |dim| && dim[i].naturalKey == keyOf(r)
  }

  /** A dimension keyed by `keyOf` over the rows `rows`: one row per distinct
      natural key occurring in `rows` (NULL included), and no other, each with
      its own surrogate key. */
  ghost predicate DimensionOver<K>(dim: seq<DimRow<K>>, rows: seq<Silver.SilverRow>, keyOf: Silver.SilverRow -> K) {
    && (forall i, j :: 0 <= i < j < |dim| ==> dim[i].naturalKey != dim[j].naturalKey)
    && (forall i, j :: 0 <= i < j < |dim| ==> dim[i].surrogateKey != dim[j].surrogateKey)
    && Covers(dim, rows, keyOf)
    && (forall i :: 0 <= i < |dim| ==> exists r :: r in rows && keyOf(r) == dim[i].naturalKey)
  }

  lemma ProjectionOfRows<K>(silver: seq<Silver.SilverRow>, keyOf: Silver.SilverRow -> K, srcKey: SourceRow -> K)
    requires forall r :: srcKey(WithDate(r)) == keyOf(r)
    ensures Map(srcKey, Map(WithDate, silver)) == Map(keyOf, silver)
  {
  }

  lemma EveryRowHasDimensionRow<K(!new)>(silver: seq<Silver.SilverRow>, keyOf: Silver.SilverRow -> K, r: Silver.SilverRow)
    requires r in silver
    ensures exists i :: 0 <= i < |Dimension(Map(keyOf, silver))| && Dimension(Map(keyOf, silver))[i].naturalKey == keyOf(r)
  {
    var n :| 0 <= n < |silver| && silver[n] == r;
    var projection := Map(keyOf, silver);
    assert projection[n] == keyOf(r);
    assert keyOf(r) in projection;
    var dim := Dimension(projection);
    var i :| 0 <= i < |dim| && dim[i].naturalKey == keyOf(r);
  }

  lemma EveryDimensionRowHasRow<K(!new)>(silver: seq<Silver.SilverRow>, keyOf: Silver.SilverRow -> K, i: nat)
    requires i < |Dimension(Map(keyOf, silver))|
    ensures exists r :: r in silver && keyOf(r) == Dimension(Map(keyOf, silver))[i].naturalKey
  {
    var projection := Map(keyOf, silver);
    var k := Dimension(projection)[i].naturalKey;
    assert k in projection;
    var n :| 0 <= n < |projection| && projection[n] == k;
    assert silver[n] in silver;
  }

  lemma DimensionOverKeys<K(!new)>(silver: seq<Silver.SilverRow>, keyOf: Silver.SilverRow -> K)
    ensures DimensionOver(Dimension(Map(keyOf, silver)), silver, keyOf)
  {
    var dim := Dimension(Map(keyOf, silver));
    forall r | r in silver ensures exists i :: 0 <= i < |dim| && dim[i].naturalKey == keyOf(r) {
      EveryRowHasDimensionRow(silver, keyOf, r);
    }
    forall i | 0 <= i < |dim| ensures exists r :: r in silver && keyOf(r) == dim[i].naturalKey {
      EveryDimensionRowHasRow(silver, keyOf, i);
    }
  }

  lemma DimensionOverRows<K(!new)>(silver: seq<Silver.SilverRow>, keyOf: Silver.SilverRow -> K, srcKey: SourceRow -> K)
    requires forall r :: srcKey(WithDate(r)) == keyOf(r)
    ensures DimensionOver(Dimension(Map(srcKey, Map(WithDate, silver))), silver, keyOf)
  {
    ProjectionOfRows(silver, keyOf, srcKey);
    DimensionOverKeys(silver, keyOf);
  }

  /** The three dimensions of the gold layer hold exactly the distinct products,
      stores and calendar dates of the silver rows, each with a surrogate key of
      its own; a NULL store or date is a dimension row like any other. */
  lemma GoldDimensions(silver: seq<Silver.SilverRow>)
    ensures DimensionOver(Dimensionalize(silver).dimProducts, silver, ProductOfRow)
    ensures DimensionOver(Dimensionalize(silver).dimStores, silver, StoreOfRow)
    ensures DimensionOver(Dimensionalize(silver).dimDate, silver, DateOfRow)
  {
    DimensionOverRows(silver, ProductOfRow, ProductOf);
    DimensionOverRows(silver, StoreOfRow, StoreOf);
    DimensionOverRows(silver, DateOfRow, DateOf);
  }

  /** How a fact row's surrogate key comes out: the key of the dimension row
      holding its natural key when no component of that key is NULL, and NULL
      otherwise, although the dimension does hold that natural key. */
  predicate ResolvedKey<K(==)>(key: Option<nat>, dim: seq<DimRow<K>>, k: K, joinable: bool) {
    && (joinable ==> key.Some? && exists j :: 0 <= j < |dim| && dim[j] == DimRow(k, key.value))
    && (!joinable ==> key.None?)
  }

  lemma KeyForResolves<K>(dim: seq<DimRow<K>>, rows: seq<Silver.SilverRow>, keyOf: Silver.SilverRow -> K,
                          r: Silver.SilverRow, joinable: bool)
    requires Covers(dim, rows, keyOf) && r in rows
    ensures ResolvedKey(KeyFor(dim, keyOf(r), joinable), dim, keyOf(r), joinable)
  {
    if joinable {
      var key := SurrogateKeyOf(dim, keyOf(r));
      var j :| 0 <= j < |dim| && dim[j].naturalKey == keyOf(r) && dim[j].surrogateKey == key.value;
      assert dim[j] == DimRow(keyOf(r), key.value);
    }
  }

  /** `gold` is a star schema over `silver`: every silver row's natural keys
      have dimension rows, and there is one fact row per silver row, in place. */
  ghost predicate StarSchemaOf(gold: GoldSnapshot, silver: seq<Silver.SilverRow>) {
    && Covers(gold.dimProducts, silver, ProductOfRow)
    && Covers(gold.dimStores, silver, StoreOfRow)
    && Covers(gold.dimDate, silver, DateOfRow)
    && |gold.fact| == |silver|
    && (forall i :: 0 <= i < |silver| ==> gold.fact[i] == ExpectedFact(gold, silver[i]))
  }

  lemma DimensionalizeIsStarSchema(silver: seq<Silver.SilverRow>)
    ensures StarSchemaOf(Dimensionalize(silver), silver)
  {
    FactOnePerSilverRow(silver);
    GoldDimensions(silver);
  }

  /** A fact row of a star schema references the dimension rows of its silver
      row's product, store and date, and carries that row's measures unchanged. */
  lemma StarSchemaFact(gold: GoldSnapshot, silver: seq<Silver.SilverRow>, i: nat)
    requires StarSchemaOf(gold, silver) && i < |silver|
    ensures var r, f := silver[i], gold.fact[i];
      && ResolvedKey(f.productKey, gold.dimProducts, ProductOfRow(r), ProductJoinable(ProductOfRow(r)))
      && ResolvedKey(f.storeKey, gold.dimStores, r.storeId, r.storeId.Some?)
      && ResolvedKey(f.dateKey, gold.dimDate, DateOfRow(r), DateOfRow(r).Some?)
      && f.transactionId == r.transactionId
      && f.transactionTimestamp == r.tenderDateTimestamp
      && f.quantity == r.quantity
      && f.grossAmount == r.grossAmount
      && f.totalDiscountAmount == r.totalDiscountAmount
      && f.netAmount == r.netAmount
  {
    var r := silver[i];
    assert gold.fact[i] == ExpectedFact(gold, r);
    KeyForResolves(gold.dimProducts, silver, ProductOfRow, r, ProductJoinable(ProductOfRow(r)));
    KeyForResolves(gold.dimStores, silver, StoreOfRow, r, r.storeId.Some?);
    KeyForResolves(gold.dimDate, silver, DateOfRow, r, DateOfRow(r).Some?);
  }

  /** A transaction carrying a cancellation line item leaves no row in the
      fact table, and no fact row has a NULL transaction id. */
  lemma CanceledTransactionsHaveNoFacts(records: seq<PosRecords.RawRecord>)
    ensures forall f, c ::
      f in Dimensionalize(Silver.Transform(records)).fact &&
      c in Silver.Explode(Silver.Transactions(records)) && PosRecords.IsCancellation(c.item) ==>
      f.transactionId.Some? && f.transactionId != c.header.transactionId
  {
    var silver := Silver.Transform(records);
    var fact := Dimensionalize(silver).fact;
    FactOnePerSilverRow(silver);
    Silver.SilverExcludesCanceled(records);
    forall f, c | f in fact && c in Silver.Explode(Silver.Transactions(records)) && PosRecords.IsCancellation(c.item)
      ensures f.transactionId.Some? && f.transactionId != c.header.transactionId
    {
      var i :| 0 <= i < |fact| && fact[i] == f;
      assert silver[i] in silver;
    }
  }
}
